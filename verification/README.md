# Verified models of the node daemon

This project models the small state machines inside the compute-node daemon and proves what they are there to
guarantee. Each file is one component:

- `Caddyfile.dfy`, `HostPatterns.dfy`, `CaddyReader.dfy`: request validation and its regular expressions, the rendered
  Caddyfile, the host expression that is searched in it, and a reader that takes every value out of it again.
- `HttpsProtocol.dfy`, `HttpsSafety.dfy`, `HttpsGuarantees.dfy`, `HttpsOutcome.dfy`, `HttpsWitness.dfy`: the HTTPS
  set-up of `node-https-helper.py` as a transition system over disk, service, memory, worker and request thread. A step is one disk or service operation with any outcome; a crash may fall between any two. Crash
  safety, the backup promise, pacing, the pinned host, the service after a restore and the status an attempt or a recovery
  ends with are proved over all runs; three runs show where the promises end.
- `HttpsManager.dfy`: the `Manager` object with its methods in their own order; every operation is proved to be one step
  of the protocol, so the theorems about all runs hold for the code.
- `PollLoop.dfy` and `PlatformLink.dfy`: the worker poll loop with its timers, wake-ups, backoff, Retry-After (the
  delay-seconds form of section 10.2.3 of RFC 9110) and `stop`, as steps of an event loop, and the object, which is
  always in a reachable state of it.
- `ResponseCache.dfy`: the response cache against a map that forgets nothing.
- `FloodGuard.dfy`: the flood limiter against the full history.
- `LangRewrite.dfy` and `LangComplete.dfy`: an interpreter for the rewritten programs, the language-branch eliminator, the
  check of a text that decides whether it is safe to apply, and what it leaves behind.
- `MessageSplitter.dfy`: the newline collapse and the greedy message splitter.
- `SchedulerModel.dfy` and `Scheduler.dfy`: the job scheduler as steps of an event loop, and the object, likewise.
- `ModelFailover.dfy`: cooldowns, the best model, the failover order and its execution.
- `UsageTracker.dfy`: usage records, daily aggregates and the summary.
- `ModelFit.dfy`: the fit estimate of the model catalog.
- `JsNumbers.dfy` and `Ledger.dfy`: JSON amounts with the coercions of JavaScript, validator stakes and node rewards.

Objects that are updated in place are classes. Their methods are proved against functions on values, and the results
about whole histories are lemmas about those functions.

## What the proofs brought to light

- A Caddyfile with carriage returns comes back with line feeds: the old file is restored as Python reads it. It is
  restored to the character if and only if it holds no carriage return.
- Recovery that crashes between writing the restored file and reloading the service finds nothing changed the next time
  and sends no command; the service goes on with the abandoned configuration.
- After a failed restore and a failed status write, a second `start` overwrites the only copy of the original.
- `stop` of the scheduler does not wait for a job that calls it before its first await.
- Led by the empty key the cache grows without bound. Its own keys, digests, are never empty.
- The response cache is called LRU in its source but evicts in order of first insertion, also when it only overwrites.
- On some hardware with 0.75 to 2 GiB of dedicated video memory a larger model can fit where a smaller one is tight.
- The language-branch eliminator also recognises `x[lang]() === 'ru'`, and turns `(isRu ? f : x.f)()` into a method call;
  without such places in the text it preserves every program.
- A stake of "500", as text, passes the minimum and is joined to entry and total instead of added: with a stake of
  somebody else the total no longer is the sum. An amount to unstake that is a word makes both NaN.
- A conditional whose test becomes a recognised one only when a conditional inside it is replaced is left standing.
- An unknown preferred model leads the failover order but is passed over by `getBestModel`.

## Model

| member | source | states |
|---|---|---|
| Caddyfile.HostCheckDecides | scripts/node-https-helper.py:95-102 | every validated request with an allowed port renders, the host expression finds exactly its domain in the result, reading it back changes nothing, and the host check of `start` then accepts that domain and no other |
| Caddyfile.ConfigParses | scripts/node-https-helper.py:100-102 | the host expression finds one host in the rendered text, whatever the e-mail address and port, and the text holds no carriage return |
| Caddyfile.ReadText | scripts/node-https-helper.py:244 | reading in text mode never yields a carriage return and never loses a whole file |
| Caddyfile.ReadTextExact | scripts/node-https-helper.py:165 | text read back equals the stored bytes if and only if they hold no carriage return |
| Caddyfile.ReadTextAt | scripts/node-https-helper.py:165 | wherever CR LF stands, or a CR that no LF follows, one LF is read, and what is before and after is read as by itself |
| Caddyfile.AcceptedIff | scripts/node-https-helper.py:30-43 | a request is accepted with a domain and an address if and only if it has exactly the five fields, the domain is in lower case a public one, the address is one of at most 254 characters, and both consents are given |
| Caddyfile.RefusedAs | scripts/node-https-helper.py:30-43 | a refusal names the first thing that is wrong |
| HostPatterns.DomainMatches | scripts/node-https-helper.py:26 | the label-by-label check of a domain accepts exactly what the regular expression matches in full |
| HostPatterns.EmailMatches | scripts/node-https-helper.py:27 | so does the check of an e-mail address |
| HostPatterns.HostLineMatches | scripts/node-https-helper.py:233 | and the search for a host on one line |
| CaddyReader.DigitsReadBack | scripts/node-https-helper.py:102 | a number printed in decimal reads back as itself |
| CaddyReader.ConfigReadsBack | scripts/node-https-helper.py:100-102 | a reader of the block structure gets the domain, the e-mail address, the upstream host and port as a number, the authority and the control socket back from the printed text, all as they were put in |
| CaddyReader.RenderedProxies | scripts/node-https-helper.py:95-102 | whatever is rendered for an accepted request gets certificates for its domain and address from Let's Encrypt and passes requests on to the configured port |
| HttpsWitness.ValidRequest | scripts/node-https-helper.py:30-43 | well-formed requests for public domains are accepted with their domain and address |
| HttpsSafety.StepInv | scripts/node-https-helper.py:126-309 | one invariant over disk, request and worker is kept by every step, crash and restart |
| HttpsSafety.CrashSafety | scripts/node-https-helper.py:145-181 | in every run with crashes anywhere, unless the latest rollback or recovery could not put the Caddyfile back, an idle process has the old Caddyfile or the new one with status "verified", whatever happened to the service |
| HttpsSafety.CrashSafetyExact | scripts/node-https-helper.py:289-309 | the same to the character, for originals without carriage return |
| HttpsSafety.RestoreExactIff | scripts/node-https-helper.py:165-167 | in every run, the Caddyfile that a rollback, or a recovery from a backup no later `start` overwrote, has just put back is the original to the character if and only if that holds no carriage return |
| HttpsWitness.CarriageReturnLost | scripts/node-https-helper.py:260-292 | every Caddyfile with a carriage return that `start` accepts is rewritten without it by an attempt whose new file is rejected, although nothing failed to be restored |
| HttpsWitness.ConcreteCarriageReturn | scripts/node-https-helper.py:232-235 | such a Caddyfile: one with CR LF is accepted |
| HttpsSafety.NeverLost | scripts/node-https-helper.py:164-176 | a Caddyfile that existed at the launch is never missing afterwards, and the unlinking branches are reached only when none existed |
| HttpsSafety.BackupPromise | scripts/node-https-helper.py:243-249 | status "configuring" with hadPrevious means that the backup exists and, unless a later `start` overwrote it, is the Caddyfile before the attempt, to the character if and only if that holds no carriage return |
| HttpsSafety.BackupKeptIff | scripts/node-https-helper.py:240-249 | a step breaks the backup promise if and only if it is a `start` saving a never restored Caddyfile over the backup of an unfinished attempt |
| HttpsSafety.WorkRank | scripts/node-https-helper.py:269-283 | every worker step lowers a bound on the steps left, the 24 probes included |
| HttpsSafety.WorkerSettles | scripts/node-https-helper.py:254-309 | from every reachable state a worker left alone finishes, whatever the world answers, and leaves the set-up settled unless it could not put the Caddyfile back |
| HttpsWitness.SecondStartLosesBackup | scripts/node-https-helper.py:244-245 | a run in which a failed restore, a failed status write and a second `start` lose the original for good |
| HttpsWitness.InterruptedRecoveryServesAbandoned | scripts/node-https-helper.py:166-171 | a run with two crashes after which the file is restored, every operation of the recovery worked, and the service still serves the abandoned configuration |
| HttpsWitness.ConcreteInput | scripts/node-https-helper.py:236-246 | the two runs start from a concrete request and Caddyfile |
| HttpsGuarantees.AttemptsPaced | scripts/node-https-helper.py:240-249 | over every run any two launched attempts are at least 600 seconds apart; the persisted deadline is the latest attempt's and the one in memory is never earlier |
| HttpsGuarantees.WorkDeadline | scripts/node-https-helper.py:302-309 | no step of a worker changes the deadline in memory or persists another one |
| HttpsGuarantees.HostPinned | scripts/node-https-helper.py:231-235 | after the first launch an existing Caddyfile names exactly the launched domain, and `start` accepts no other |
| HttpsGuarantees.HostNeverChanges | scripts/node-https-helper.py:231-235 | no step changes the host of a Caddyfile present before and after it |
| HttpsGuarantees.ServiceRestored | scripts/node-https-helper.py:289-301 | with a proxy that may die and be restarted by systemd at any time: a failed first set-up leaves the service stopped for good; a finished rollback serves the restored file or nothing; recovery too, except where it found the file unchanged |
| HttpsGuarantees.RecoveryServesIff | scripts/node-https-helper.py:166-173 | the restart step of recovery ends with the restored file served if and only if the file was changed, the service was commanded, or it already served it |
| HttpsOutcome.ConfigureStatus | scripts/node-https-helper.py:254-309 | from every reachable moment of an attempt: left alone it ends verified, with the new file in place, that status persisted and no backup; or with the old status to be verified again, only if that named a domain and a Caddyfile existed; or failed, which excludes both once the file was read |
| HttpsOutcome.RecoverStatus | scripts/node-https-helper.py:145-181 | a recovery ends verified, persisted, with a Caddyfile and without backup, or failed |
| HttpsOutcome.AllOkVerifies | scripts/node-https-helper.py:259-281 | an attempt in which every operation succeeds ends verified with its configuration in place |
| HttpsOutcome.BadStep | scripts/node-https-helper.py:266-288 | what one failing operation leads to: before the probes the rollback, in them the rollback after the 24th or a failure of another kind, else the next probe |
| HttpsOutcome.LateProbeVerifies | scripts/node-https-helper.py:269-283 | fewer than 24 failing probes and then success end verified |
| HttpsOutcome.ProbesGiveUp | scripts/node-https-helper.py:269-283 | 24 failing probes lead to the rollback with the disk untouched |
| HttpsOutcome.LoadServes | scripts/node-https-helper.py:268 | the reload or start makes the service run the new configuration |
| HttpsOutcome.RollbackPutsBack | scripts/node-https-helper.py:290-309 | a rollback in which every operation succeeds puts back what the attempt had read, or nothing, and persists that it failed |
| HttpsOutcome.RecoveryConfirms | scripts/node-https-helper.py:149-161 | a recovery that finds domain, Caddyfile and a sound service, with every operation succeeding, ends verified and persisted with file and service untouched |
| HttpsOutcome.RecoveryPutsBack | scripts/node-https-helper.py:164-181 | otherwise, with every operation succeeding, the backup is back in place, or nothing, and failed is persisted |
| HttpsManager.Manager.constructor | scripts/node-https-helper.py:126-132 | a machine on which the helper never ran |
| HttpsManager.Manager.Start | scripts/node-https-helper.py:229-252 | the error codes in the order of the checks; a refused request changes nothing; an allowed one in a good world succeeds, with exactly one worker launched, backup and status written, and a configuration that passes requests for the domain on to the configured port |
| HttpsManager.Manager.Accept | scripts/node-https-helper.py:230-241 | accepting a request fixes the rendered configuration |
| HttpsManager.Manager.Launch | scripts/node-https-helper.py:242-251 | backup first, then the status, then the launch; a failing write stops before the launch |
| HttpsManager.Manager.BackUp | scripts/node-https-helper.py:243-245 | one protocol step: the backup |
| HttpsManager.Manager.PersistIntent | scripts/node-https-helper.py:246-250 | one protocol step: intent in memory, then on disk |
| HttpsManager.Manager.CheckStatus | scripts/node-https-helper.py:211-227 | only the mode in memory changes, only with a known domain and no worker, and never to verified without a Caddyfile |
| HttpsManager.Manager.Boot | scripts/node-https-helper.py:126-143 | start-up is the protocol's restart and starts recovery exactly for status "configuring" |
| HttpsManager.Manager.Crash | scripts/node-https-helper.py:126-131 | a crash keeps disk and service and forgets memory |
| HttpsManager.Manager.Configure | scripts/node-https-helper.py:254-309 | at the end the set-up is settled unless the rollback could not put the Caddyfile back; verified means the new file, that status persisted and no backup; otherwise verification is required, only with an old domain and Caddyfile, or it failed; a good world ends verified |
| HttpsManager.Manager.Install | scripts/node-https-helper.py:255-283 | ends idle with the new file in place, the verified status persisted and the backup removed, or at the rollback with the locals the code has there |
| HttpsManager.Manager.Prepare | scripts/node-https-helper.py:260-268 | everything before the probes: the probes are reached with the new file in place, or the rollback with the locals the code has there |
| HttpsManager.Manager.Certify | scripts/node-https-helper.py:273-274 | the probe, then the enabling, which needs the probe |
| HttpsManager.Manager.Commit | scripts/node-https-helper.py:275-280 | the verified status, then the removal of the backup, which needs the status on disk |
| HttpsManager.Manager.ProbeLoop | scripts/node-https-helper.py:269-283 | at most 24 tries; success only with the verified status persisted and the backup removed |
| HttpsManager.Manager.ProbeOnce | scripts/node-https-helper.py:272-281 | one try: verified for good, to be tried again, or a failure that ends the attempt |
| HttpsManager.Manager.RollBack | scripts/node-https-helper.py:290-309 | ends idle; nothing but the failure flags of the record changes |
| HttpsManager.Manager.ReadPrevious | scripts/node-https-helper.py:260-263 | one protocol step: previous text and activity |
| HttpsManager.Manager.WriteTarget | scripts/node-https-helper.py:264-265 | one protocol step: the new Caddyfile |
| HttpsManager.Manager.ValidateConfig | scripts/node-https-helper.py:266-267 | one protocol step: validation |
| HttpsManager.Manager.LoadConfig | scripts/node-https-helper.py:268 | one protocol step: reload or start |
| HttpsManager.Manager.TryOnce | scripts/node-https-helper.py:270-274 | one protocol step: probe or enable, with its two kinds of failure |
| HttpsManager.Manager.PersistVerified | scripts/node-https-helper.py:275-278 | one protocol step: verified in memory even if persisting fails |
| HttpsManager.Manager.DropTheBackup | scripts/node-https-helper.py:279-280 | one protocol step: the backup goes only now |
| HttpsManager.Manager.UndoWrite | scripts/node-https-helper.py:291-298 | one protocol step: the old file back, or the service stopped |
| HttpsManager.Manager.UndoService | scripts/node-https-helper.py:293-296 | one protocol step: reload, start or stop |
| HttpsManager.Manager.UnlinkTarget | scripts/node-https-helper.py:299 | one protocol step: the new file removed |
| HttpsManager.Manager.PersistFailure | scripts/node-https-helper.py:302-309 | verification required, with the old status and the current deadline, exactly if an old domain and an old file exist; else failed; persisted if the write succeeds |
| HttpsManager.Manager.Recover | scripts/node-https-helper.py:145-181 | ends idle and settled unless this recovery could not put the Caddyfile back; verified, persisted and with a Caddyfile, or failed; a sound set-up in a good world is confirmed |
| HttpsManager.Manager.Confirm | scripts/node-https-helper.py:149-161 | idle with the verified status persisted and the backup removed, or at the restore; file and service untouched |
| HttpsManager.Manager.Undo | scripts/node-https-helper.py:162-181 | ends idle; nothing but the failure flags of the record changes |
| HttpsManager.Manager.RecheckTls | scripts/node-https-helper.py:150-152 | goes on exactly with a domain, a Caddyfile and a successful probe |
| HttpsManager.Manager.EnableAgain | scripts/node-https-helper.py:153 | one protocol step: enable |
| HttpsManager.Manager.PersistRecovered | scripts/node-https-helper.py:154-157 | one protocol step: verified |
| HttpsManager.Manager.DropRecovered | scripts/node-https-helper.py:158-159 | one protocol step: the backup goes |
| HttpsManager.Manager.RestoreFile | scripts/node-https-helper.py:164-176 | one protocol step: the backup over the Caddyfile, or the service stopped |
| HttpsManager.Manager.RestoreService | scripts/node-https-helper.py:168-173 | one protocol step: a command only if the file changed or the service is inactive |
| HttpsManager.Manager.UnlinkRecovered | scripts/node-https-helper.py:176 | one protocol step: the new file removed |
| HttpsManager.Manager.PersistRecoveryFailure | scripts/node-https-helper.py:179-181 | one protocol step: failed |
| PollLoop.StepInv | src/core/platform-link.ts:371-410 | one invariant over timers, continuations, backoff and stop is kept by every step |
| PollLoop.BackoffHonoured | src/core/platform-link.ts:382-388 | in every interleaving no poll is issued before the backoff deadline, with another in flight, or when disabled |
| PollLoop.BackoffWindow | src/core/platform-link.ts:536-547 | from a moment with no poll running, no run of events polls before the deadline known then |
| PollLoop.NeverDoublesNeverDies | src/core/platform-link.ts:371-410 | at most one armed timer, the one in its slot; at most one poll, the one in its slot, so that a returning poll always finds itself there; while enabled a timer, a poll or a caller about to reschedule exists |
| PollLoop.QuietAfterStop | src/core/platform-link.ts:584-592 | once stopped no timer is ever armed and no poll ever issued again |
| PollLoop.StopWaits | src/core/platform-link.ts:594-599 | a `stop` resolves only after the poll in flight has ended |
| PollLoop.FailuresAreStreak | src/core/platform-link.ts:450 | the failure counter is the number of outage failures since the platform last answered |
| PollLoop.CappedExponent | src/core/platform-link.ts:543 | capping the exponent at 3 changes nothing below the 300 s cap |
| PollLoop.ExactDelay | src/core/platform-link.ts:440-446 | the n-th consecutive outage failure delays by exactly min(60 s * 2^(n-1), 300 s) without Retry-After; with it by exactly the rest of what was asked, cut to 15 minutes, if that is more |
| PollLoop.ResumeArms | src/core/platform-link.ts:371-379 | once a poll is over and its caller reschedules, the one timer is armed for the chosen delay, or none after `stop` |
| PollLoop.IdleAfterNoTask | src/core/platform-link.ts:449-452 | after an answer without a task the next poll comes after the idle interval |
| PollLoop.SoonAfterTask | src/core/platform-link.ts:449-453 | after a task is done, whatever happened meanwhile, it comes after 5 s |
| PollLoop.IdleAfterInference | src/core/platform-link.ts:536-539 | after a failure of local inference it comes after the idle interval, without backoff |
| PollLoop.BackoffAfterOutage | src/core/platform-link.ts:541-546 | after an outage the timer is armed for the end of the backoff |
| PollLoop.PollsWhenDue | src/core/platform-link.ts:401-413 | a timer that is due, or a wake-up after the backoff, polls if and only if no poll is under way and the node is registered and has capacity |
| PlatformLinks.PlatformLink.constructor | src/core/platform-link.ts:363-369 | the initial fields, a reachable state |
| PlatformLinks.PlatformLink.AlwaysOne | src/core/platform-link.ts:371-410 | between any two handlers the object has at most one timer and one poll, each in its slot, and while enabled something that goes on |
| PlatformLinks.PlatformLink.ScheduleTaskPoll | src/core/platform-link.ts:371-379 | clears the slot before arming; nothing when disabled |
| PlatformLinks.PlatformLink.ClearTaskTimer | src/core/platform-link.ts:373 | disarms the timer in the slot |
| PlatformLinks.PlatformLink.OnTaskTimer | src/core/platform-link.ts:374-378 | one step; a request is only issued after the backoff and with no poll under way, and no timer stays armed |
| PlatformLinks.PlatformLink.WakeTaskLoop | src/core/platform-link.ts:382-388 | one step; during backoff it does nothing, and a request is only issued after it with no poll under way |
| PlatformLinks.PlatformLink.StartTaskLoop | src/core/platform-link.ts:393-399 | one step; one timer is armed, for the idle interval of at least 5 s |
| PlatformLinks.PlatformLink.RunPoll | src/core/platform-link.ts:401-418 | leaves a poll in flight alone, skips, or issues one: it is issued if and only if none is in flight, the node is not busy, registered and has capacity |
| PlatformLinks.PlatformLink.OnAnswer | src/core/platform-link.ts:447-453 | an answer resets the failures; the next delay is 5 s with a task and the idle interval without |
| PlatformLinks.PlatformLink.OnInferenceFailure | src/core/platform-link.ts:529-540 | one step: the idle interval and no backoff |
| PlatformLinks.PlatformLink.OnOutage | src/core/platform-link.ts:541-547 | one step; the exact delay without and with Retry-After; the backoff ends when the next poll is due |
| PlatformLinks.PlatformLink.FailedPoll | src/core/platform-link.ts:440-446 | the statements of the catch branch, with three readings of the clock |
| PlatformLinks.PlatformLink.OnTaskDone | src/core/platform-link.ts:525-528 | a finished assignment is one step |
| PlatformLinks.PlatformLink.End | src/core/platform-link.ts:549-551 | the busy mark goes with the poll |
| PlatformLinks.PlatformLink.OnPollSettled | src/core/platform-link.ts:405-409 | one step; the slot is cleared only by the poll in it, which is always this one |
| PlatformLinks.PlatformLink.OnCallerResumes | src/core/platform-link.ts:376-377 | one step; exactly one timer is armed afterwards, or none once stopped |
| PlatformLinks.PlatformLink.StopLoop | src/core/platform-link.ts:584-599 | one step; nothing is armed afterwards, and what is awaited is whatever poll is under way |
| ResponseCaches.HitIsLastWrite | src/gateway/router.ts:119-124 | after any history a hit is the last value set under the key, at most 5 minutes old |
| ResponseCaches.NewKeySurvives | src/gateway/router.ts:126-132 | an entry set under a new key is not evicted by the next 499 `set` calls, whatever is interleaved; a look-up in time then hits the last value |
| ResponseCaches.PlaceSurvives | src/gateway/router.ts:126-132 | a key with fewer than 500 - n keys from it to the end survives n `set` calls |
| ResponseCaches.SizeBoundIff | src/gateway/router.ts:127-130 | `set` keeps the bound of 500 except exactly when a full cache led by the empty key gets a new key |
| ResponseCaches.SetReplaces | src/gateway/router.ts:126-132 | what `set` does to a cache in any order: the oldest key goes from a full one unless it is empty, the new key keeps its place or goes to the end, every other entry left is unchanged |
| ResponseCaches.EmptyKeyUnbounded | src/gateway/router.ts:127-130 | led by the empty key the cache grows without bound: after n different keys it holds all n, for every n |
| ResponseCaches.SizeBound | src/gateway/router.ts:116 | without the empty key never more than 500 entries, over any history |
| ResponseCaches.ResponseCache.constructor | src/gateway/router.ts:115 | an empty cache without history |
| ResponseCaches.ResponseCache.Bounded | src/gateway/router.ts:116 | an object that was never given the empty key holds at most 500 entries |
| ResponseCaches.ResponseCache.Survives | src/gateway/router.ts:126-132 | an entry written under a new key and never looked up too late is still there after 499 more `set` calls |
| ResponseCaches.ResponseCache.Lookup | src/gateway/router.ts:119-124 | a hit exactly for an entry of at most 5 minutes, which is the last value written under the key in the history of the object; after a miss that entry alone is gone |
| ResponseCaches.ResponseCache.Store | src/gateway/router.ts:126-132 | a full cache first gives up its oldest key, unless empty, also before an overwrite; then the key keeps its place or goes to the end, and no other entry changes; never more than 500 entries without the empty key |
| ResponseCaches.ResponseCache.Remove | src/gateway/router.ts:122 | deleting closes the gap in the insertion order |
| FloodGuard.SameVerdict | src/channels/guardian.ts:545-551 | the pruned and truncated list gives the verdict of the full history |
| FloodGuard.WindowBound | src/channels/guardian.ts:150-157 | any half-open window of ten seconds has at most five messages let through |
| FloodGuard.FloodMeansFive | src/channels/guardian.ts:550 | a message is dropped exactly when five were let through in the ten seconds up to it |
| FloodGuard.PassKeepsSpacing | src/channels/guardian.ts:151-156 | letting a message through keeps it a full window later than the fifth before it |
| FloodGuard.Prune | src/channels/guardian.ts:548 | the filter of the stored times |
| FloodGuard.Guardian.constructor | src/channels/guardian.ts:547 | nobody has a history |
| FloodGuard.Guardian.IsFlood | src/channels/guardian.ts:545-551 | the verdict of the full history; no history changes |
| FloodGuard.Guardian.TrackMessage | src/channels/guardian.ts:553-557 | the user's history grows by one message, nobody else's changes; alone it keeps no bound |
| FloodGuard.Guardian.Filter | src/channels/guardian.ts:150-157 | lets a message through exactly when fewer than five are in the window, and records only then; however often it ran, no user ever got more than five through in any ten seconds |
| LangRewrite.RemovableTestIsFalsy | transform.js:5-27 | a recognised test that is no computed call is falsy and effect-free in every run that keeps the promise |
| LangRewrite.PreserveE | transform.js:30-34 | a pass over a safe text keeps value, effects and exceptions of every expression, whichever conditionals it reaches |
| LangRewrite.PreserveS | transform.js:37-47 | and completion and state of every statement, whichever ifs it reaches |
| LangRewrite.MeaningPreserved | transform.js:29-47 | both passes, whichever recognised tests they reach, nested or not, in running code, functions and methods: if each starts from a safe text, no run that keeps the promise changes |
| LangRewrite.TransformPreserves | transform.js:29-49 | rewriting everything that is recognised preserves every promise-keeping run of every safe program |
| LangRewrite.PassOneRewritesS | transform.js:30-34 | replacing every recognised conditional is one result of the first pass |
| LangRewrite.PassTwoRewritesS | transform.js:37-47 | replacing or removing every recognised if is one result of the second pass |
| LangComplete.RecognisedForms | transform.js:5-27 | which tests are recognised: `lang` and `isRu` against 'ru' from either side, a call of `lang` or `detectLang` against 'ru' from the left, and `isRu` |
| LangComplete.PassOneLeavesNoneIff | transform.js:30-34 | the first pass leaves no recognised conditional in an expression, if and only if replacing the conditionals inside a test never makes that test a recognised one |
| LangComplete.PassOneLeavesNoneSIff | transform.js:30-34 | the same of statements |
| LangComplete.UncoveringExample | transform.js:30-34 | it can: `(lang === 'ru' ? x : isRu) ? a : b` |
| LangComplete.PassTwoLeavesNone | transform.js:37-47 | the second pass leaves no recognised if, whatever the program |
| LangComplete.TransformLeavesNone | transform.js:29-49 | after both no function has a recognised if, nor a recognised conditional unless one was uncovered |
| LangRewrite.ConditionalKeptIff | transform.js:16-34 | a conditional between two values whose test is recognised, whatever path and arguments it calls and with either operator, keeps its meaning in all promise-keeping runs if and only if the text is safe, that is, the test is no computed call such as `table[lang]() === 'ru'` |
| LangRewrite.IfKeptIff | transform.js:37-47 | the same for an if with an else branch |
| LangRewrite.CalleeKeptIff | transform.js:30-34 | a call `(test ? f : path)(...)` keeps its meaning in all promise-keeping runs if and only if the text is safe, that is, the path is a variable: otherwise it becomes a method call |
| MessageSplitter.CollapseUntriples | src/channels/gstdai.ts:991 | the newline collapse leaves no three line feeds in a row |
| MessageSplitter.UntripledUnchanged | src/channels/gstdai.ts:991 | and leaves text without three in a row alone |
| MessageSplitter.CollapseAtRun | src/channels/gstdai.ts:991 | of every run it makes two if it is longer, and the text around it is collapsed by itself |
| MessageSplitter.TrimExact | src/channels/gstdai.ts:991 | trimming keeps a part of the text with only blanks in front of it and behind it |
| MessageSplitter.TrimKeepsSolid | src/channels/gstdai.ts:1008 | so it loses no other character, and leaves nothing exactly of a blank text |
| MessageSplitter.HtmlParagraphs | src/channels/gstdai.ts:991 | so the collapsed, trimmed text has only non-empty paragraphs |
| MessageSplitter.SplitJoins | src/channels/gstdai.ts:1004 | joining the paragraphs gives the text back |
| MessageSplitter.SplitCuts | src/channels/gstdai.ts:1004 | no paragraph holds a break, and none but the last ends with a line feed |
| MessageSplitter.SplitUnique | src/channels/gstdai.ts:1004 | these two fix the paragraphs |
| MessageSplitter.StaysAhead | src/channels/gstdai.ts:1005-1013 | the greedy packing is never behind any other grouping |
| MessageSplitter.GreedyOptimal | src/channels/gstdai.ts:1005-1014 | no order-preserving grouping under the length rule uses fewer messages |
| MessageSplitter.JoinedJoins | src/channels/gstdai.ts:1011 | joining the chunks is joining their paragraphs |
| MessageSplitter.GreedySplitsWell | src/channels/gstdai.ts:1004-1014 | the chunks join back to the text, each is at most 4000 long or one paragraph, and they are as few as possible |
| MessageSplitter.ChunksAreGroups | src/channels/gstdai.ts:1006-1013 | the text-building loop computes the greedy groups |
| MessageSplitter.Pack | src/channels/gstdai.ts:1005-1014 | sends one message for each chunk, in order, with the same characters but blanks at its ends, empty only for a blank chunk; a blank last chunk is not sent |
| MessageSplitter.MessagesSent | src/channels/gstdai.ts:1008 | the same of the messages for any chunks |
| MessageSplitter.NothingLost | src/channels/gstdai.ts:1004-1014 | all non-blank characters of any text are sent, in order |
| MessageSplitter.ChunksSound | src/channels/gstdai.ts:1004-1014 | of any text, with empty paragraphs too, the chunks lose nothing but line feeds and each is at most 4000 long or one paragraph |
| MessageSplitter.ChunksSplitWell | src/channels/gstdai.ts:1004-1014 | without empty paragraphs they also join back to the text and are as few as possible |
| MessageSplitter.SendHtml | src/channels/gstdai.ts:994-1015 | short text whole; of any text the non-blank characters are sent, in order; long text as fitting chunks that lose nothing but line feeds, a message being empty only for a blank chunk; without empty paragraphs lossless and fewest |
| SchedulerModel.NeverOverlaps | src/core/scheduler.ts:87-113 | in every interleaving a job has at most one execution under way, and past its start it is the one in `inFlight` |
| SchedulerModel.EarlierCannotClear | src/core/scheduler.ts:108-112 | the continuation of an earlier execution never clears the mark of a running one |
| SchedulerModel.TimersAndCounts | src/core/scheduler.ts:116-131 | after any run a disabled job has no armed timer, any job at most one of each kind, and `runCount` is the number of successful ends of its executions among the events |
| SchedulerModel.StartAllArms | src/core/scheduler.ts:68-85 | after `startAll` every enabled job has its interval armed, and one that had none its start timer too |
| SchedulerModel.EnablingArms | src/core/scheduler.ts:116-131 | enabling a job arms its interval |
| SchedulerModel.IntervalKept | src/core/scheduler.ts:77-131 | no event but disabling the job or `stop` takes the interval of an enabled job away |
| SchedulerModel.IntervalStays | src/core/scheduler.ts:77-131 | so over every run it stays until one of them |
| SchedulerModel.RunningIff | src/core/scheduler.ts:87-113 | a job is marked running exactly while an execution of it is under way |
| SchedulerModel.BeginsIff | src/core/scheduler.ts:79-90 | a timer that fires, or a run on demand, begins an execution if and only if the job is enabled and none is under way |
| SchedulerModel.StopDisarms | src/core/scheduler.ts:156-162 | `stop` leaves no timer armed |
| SchedulerModel.StopWaits | src/core/scheduler.ts:163-167 | `stop` resolves only after everything under way has ended, unless it was called from a job's synchronous prefix |
| SchedulerModel.StopMissesIff | src/core/scheduler.ts:107 | `stop` misses an execution under way if and only if one is in its synchronous prefix |
| SchedulerModel.AwaitedBegun | src/core/scheduler.ts:163-167 | what `stop` waits for is past its start |
| SchedulerModel.StopFromTask | src/core/scheduler.ts:90-107 | such a run |
| Schedulers.Scheduler.constructor | src/core/scheduler.ts:38 | no jobs, a reachable state |
| Schedulers.Scheduler.AlwaysOne | src/core/scheduler.ts:77-113 | between any two calls every job has at most one timer of each kind, none when disabled, and at most one execution under way |
| SchedulerModel.NotRunning | src/core/scheduler.ts:88-89 | a job not marked running has no execution under way |
| Schedulers.Scheduler.RegisterTask | src/core/scheduler.ts:41-65 | one step: a new record |
| Schedulers.Scheduler.StartTasks | src/core/scheduler.ts:68-75 | one step: afterwards every enabled job has its interval armed, and one that had none its start timer too; nothing but timers changed |
| Schedulers.Scheduler.BeginRun | src/core/scheduler.ts:87-90 | nothing if disabled or running, else the running mark and a new execution |
| Schedulers.Scheduler.OnStartTimer | src/core/scheduler.ts:79-82 | one step; an execution begins only when none of the job is under way |
| Schedulers.Scheduler.OnInterval | src/core/scheduler.ts:84 | one step; an execution begins only when none of the job is under way |
| Schedulers.Scheduler.RunOnDemand | src/core/scheduler.ts:134-139 | one step; false for an unknown id; an execution begins only when none of the job is under way |
| Schedulers.Scheduler.SetTaskEnabled | src/core/scheduler.ts:116-131 | one step; false for an unknown id; an enabled job has its interval armed, a disabled one no timer; nothing else changes |
| Schedulers.Scheduler.OnSuspended | src/core/scheduler.ts:107 | one step: the promise is stored |
| Schedulers.Scheduler.OnThrownAtOnce | src/core/scheduler.ts:98-107 | one step: a throw before the first await |
| Schedulers.Scheduler.OnEnded | src/core/scheduler.ts:92-105 | one step: counts a success, clears the running mark; no execution of the job is under way afterwards |
| Schedulers.Scheduler.OnContinued | src/core/scheduler.ts:108-112 | one step; whatever is under way past its start stays in `inFlight` |
| Schedulers.Scheduler.StopTasks | src/core/scheduler.ts:156-168 | one step; no timer is armed afterwards and nothing but timers changed; what is awaited has begun, and is everything under way if and only if no job is in its synchronous prefix |
| Failover.CooldownMeansNoSuccess | src/core/model-failover.ts:88-113 | while a cooldown is set no success happened at or after 90 seconds before its end |
| Failover.CoolingIff | src/core/model-failover.ts:88-113 | over all histories a model is unavailable exactly in the 30 seconds after a failure that triggered cooldown, unless a success came since |
| Failover.LastLatencies | src/core/model-failover.ts:90-96 | the successes are counted and the latencies are those of the last 20 |
| Failover.OneInThreeTriggers | src/core/model-failover.ts:107-113 | of three successive failures without a success in the minute before, exactly one triggers cooldown |
| Failover.FailuresCounted | src/core/model-failover.ts:103 | the counter counts all failures ever |
| Failover.LastSuccessIsLatest | src/core/model-failover.ts:91 | the recorded success is the latest |
| Failover.OrderUnique | src/core/model-failover.ts:166-181 | its description - every chain model once, leading, available, cooling, each in chain order - fixes the failover order |
| Failover.HeadIsBestIff | src/core/model-failover.ts:65-80 | the head of the order is the best model if and only if the preferred model is known |
| Failover.OneFailureEach | src/core/model-failover.ts:157-160 | each failed attempt adds one failure to its own record and touches no other |
| Failover.ModelFailover.constructor | src/core/model-failover.ts:47-62 | a fresh record for each model of the chain, no events |
| Failover.ModelFailover.Recorded | src/core/model-failover.ts:88-113 | of every object: the failures of a record are those recorded, while a cooldown is set no success was recorded at or after 90 seconds before its end, and a model is unavailable exactly in the 30 seconds after a recorded trigger without success since |
| Failover.ModelFailover.GetOrCreate | src/core/model-failover.ts:183-190 | creates a missing record |
| Failover.ModelFailover.GetBestModel | src/core/model-failover.ts:65-80 | the usable preferred model, else the first available one of the chain, else its first |
| Failover.ModelFailover.RecordSuccess | src/core/model-failover.ts:88-98 | one record succeeds; the event joins the history of its model |
| Failover.ModelFailover.RecordFailure | src/core/model-failover.ts:101-116 | one record fails; the event joins the history of its model |
| Failover.ModelFailover.GetFailoverOrder | src/core/model-failover.ts:166-181 | computes the described order; only an unknown preferred model gets a record |
| Failover.ModelFailover.AddAvailable | src/core/model-failover.ts:171-175 | the first loop: what is available, in chain order |
| Failover.ModelFailover.AddRest | src/core/model-failover.ts:176-180 | the second loop: the rest, in chain order |
| Failover.ModelFailover.TryInTurn | src/core/model-failover.ts:145-163 | tries in order, each once, up to the first success; records failures before it and the success |
| Failover.ModelFailover.ExecuteWithFailover | src/core/model-failover.ts:141-164 | the first success in failover order, or an error exactly when all fail |
| UsageTracking.GroupsConserve | src/core/usage-tracker.ts:74-102 | however records are grouped, the groups add up to all of them |
| UsageTracking.GroupIsItsRecords | src/core/usage-tracker.ts:74-91 | each group is the sum of its own records |
| UsageTracking.RecentWithinModel | src/core/usage-tracker.ts:85-89 | a 24-hour figure is at most its model's total |
| UsageTracking.RecentIsAfter | src/core/usage-tracker.ts:85-89 | and the sum of the model's records of the last 24 hours |
| UsageTracking.UsageTracker.constructor | src/core/usage-tracker.ts:46-49 | nothing recorded |
| UsageTracking.UsageTracker.RecordUse | src/core/usage-tracker.ts:52-66 | the new record comes last, the oldest goes when there are 10000, and only the aggregate of its day grows, by it |
| UsageTracking.UsageTracker.NewestKept | src/core/usage-tracker.ts:55-57 | what is kept is the newest min(n, 10000) of all records ever made |
| UsageTracking.UsageTracker.DailyConserves | src/core/usage-tracker.ts:59-65 | the daily aggregates add up to every record ever made, truncation notwithstanding |
| UsageTracking.UsageTracker.GetSummary | src/core/usage-tracker.ts:69-132 | totals, per-model and 24-hour figures of exactly the last min(n, 10000) records, which the total of requests counts |
| UsageTracking.AddUp | src/core/usage-tracker.ts:74-91 | the first loop |
| UsageTracking.SumModels | src/core/usage-tracker.ts:93-101 | the totals are added up from the models |
| ModelFit.LargerNeverBetterIff | src/lib/model-catalog.ts:16-28 | among positive sizes a larger model never gets a better verdict if and only if the hardware is not of the stated kind, with dedicated video memory for some model but below 2 GiB |
| ModelFit.InvertingHardware | src/lib/model-catalog.ts:24-28 | such hardware: 8 GiB of memory, 3 GiB of it available, 1 GiB of video memory |
| ModelFit.InvertsIff | src/lib/model-catalog.ts:24-28 | it is the hardware on which the sizes that fit are an interval that leaves out the smallest model |
| ModelFit.PlainHardwareNeverInverts | src/lib/model-catalog.ts:23-28 | in particular without dedicated video memory or with at least 2 GiB |
| ModelFit.MoreNeverWorse | src/lib/model-catalog.ts:24-28 | more available memory or known free disk never worsens a verdict |
| ModelFit.FitsBetween | src/lib/model-catalog.ts:18-28 | on every local machine the sizes that fit are exactly those between two bounds in closed form |
| ModelFit.InsufficientAbove | src/lib/model-catalog.ts:18-27 | on every local machine the sizes that are insufficient are exactly those above one bound in closed form |
| ModelFit.VerdictExact | src/lib/model-catalog.ts:16-28 | so the verdict on every machine and size, the unknown one included, is given by three bounds in closed form |
| ModelFit.ReserveExact | src/lib/model-catalog.ts:19 | the reserve: 0.75 GiB up to 5 GiB of memory, 2 GiB from 13 1/3 on, 15% between |
| ModelFit.FitsOnCpuHasReserve | src/lib/model-catalog.ts:19-28 | "fits" without enough video memory leaves 0.75 to 2 GiB available |
| ModelFit.RequiredExact | src/lib/model-catalog.ts:18 | the memory estimate in integers |
| ModelFit.DiskNeededExact | src/lib/model-catalog.ts:21 | the disk estimate in integers |
| Ledger.AlwaysBalanced | src/gateway/server.ts:3153-3203 | after any sequence of register, stake and unstake in which accepted stakes are numbers and amounts to unstake read as numbers, each total is the sum of its positive entries |
| Ledger.FirstTextUnbalances | src/gateway/server.ts:3153-3203 | and the first other request that takes effect does disturb the record |
| Ledger.TextStakeAddsUpIff | src/gateway/server.ts:3182-3184 | a text stake of digits and points on a balanced record of decimals leaves a total that reads as the sum of the entries if and only if the joined texts are numbers and nobody else has a stake, or the text is a single point, or own stake and total have the same number of decimals, not none |
| Ledger.DigitsStakeAddsUpIff | src/gateway/server.ts:3182-3184 | with whole numbers and a text of digits: if and only if nobody else has a stake |
| Ledger.AloneSameText | src/gateway/server.ts:3182-3184 | with nobody else, entry and total become one and the same value, whatever the text |
| JsNumbers.JoinedReads | src/gateway/server.ts:3183-3184 | a printed number joined with a text of digits and points reads as a number exactly when there is at most one point, and as which |
| JsNumbers.JoinKeepsDistanceIff | src/gateway/server.ts:3183-3184 | two numbers joined with the same text keep their distance if and only if it is a single point or both have the same number of decimals, not none |
| Ledger.TextStakeRun | src/gateway/server.ts:3182-3184 | a run: stakes of "500" and of 200 leave the entries "0500" and 200 and the total "0500200" |
| Ledger.TextSettles | src/gateway/server.ts:3199-3203 | a run: a stake of "500", unstaked while it is alone, leaves the number zero and no entry |
| Ledger.WordUnstakeRun | src/gateway/server.ts:3199-3203 | a run: unstaking "abc" of a stake of 500 makes entry and total NaN |
| Ledger.StakeBalancedIff | src/gateway/server.ts:3182-3184 | a stake keeps a balanced record one of numbers that add up if and only if it is no text; a number moves the own stake by exactly that, and nobody else's entry changes |
| Ledger.UnstakeBalancedIff | src/gateway/server.ts:3199-3203 | unstaking keeps it so, and the record adding up, if and only if the amount reads as a number; it pays the amount or the stake, whichever is less, and the whole stake for none or zero, leaves the rest, and changes nobody else's entry; otherwise entry and total become NaN |
| Ledger.AcceptedExact | src/gateway/server.ts:3174-3182 | accepted are numbers from 100 on, texts that read as such, and every text that reads as no number |
| Ledger.ValidatorRegistry.constructor | src/gateway/server.ts:3103-3107 | no validators, no history |
| Ledger.ValidatorRegistry.Register | src/gateway/server.ts:3140-3160 | the checks in order; registering again starts from zero |
| Ledger.ValidatorRegistry.InOrder | src/gateway/server.ts:3172-3206 | while only numbers took effect every record of the object is balanced |
| Ledger.ValidatorRegistry.StakeOn | src/gateway/server.ts:3172-3187 | any JSON amount: the checks in order, and the stake; a balanced record stays balanced exactly if it is no text, a number adds exactly itself to the own stake, and nobody else's changes |
| Ledger.ValidatorRegistry.UnstakeFrom | src/gateway/server.ts:3189-3206 | any JSON amount: the checks in order; of a balanced record, which stays balanced exactly if the amount reads as a number, the amount or the stake is paid, whichever is less, and the rest remains; nobody else's entry changes |
| Ledger.ValidatorRegistry.TakeOut | src/gateway/server.ts:3199-3203 | the statements on the record of one validator |
| Ledger.RewardLedger.constructor | src/gateway/server.ts:3113 | nothing approved, pending or claimed |
| Ledger.RewardLedger.DistributeTokens | src/gateway/server.ts:3129-3137 | fee and shares add up to the total unless nobody is paid |
| Ledger.RewardLedger.PayEach | src/gateway/server.ts:3133-3135 | the paying loop, node by node |
| Ledger.RewardLedger.VerifyTask | src/gateway/server.ts:3441-3466 | the checks in order; approved rewards equal fees, pending and claimed rewards before and after |
| Ledger.RewardLedger.Claim | src/gateway/server.ts:3306-3321 | everything pending is paid and zero is left, or nothing changes |

## Left out

- HTTP, chat and dashboard plumbing, signatures, spam and profanity lists: inputs and outputs of the modelled parts; a
  signature check is a Boolean parameter.
- The helper's `resolve_public`, `verify_local_tls`, `preflight` and systemd: any outcome of theirs is an outcome of the
  step that calls them. A query for an active unit may answer wrongly; during a restore that counts as a failed
  service command.
- The helper's display fields (expiry, verification time, error codes other than those of `start`): nothing depends on them.
- The host check of `start` and the checks under its lock are one step: they could only disagree if the request thread
  slept through a whole attempt and its ten-minute cooldown in between.
- Reading status.json and the backup succeeds at start-up and in recovery; the persisted JSON round-trips.
- Within one call of a `Manager` method the clock stands still; the protocol lets it advance between any two steps.
- `node-https-helper.py` lower-cases a domain with Unicode rules; only A-Z and the Kelvin sign can become ASCII letters.
- `startTaskLoop` runs once and before any `stop`, as `src/gateway/server.ts` does it; heartbeats and the registration
  retry, which `stop` does not wait for, are not modelled.
- Event listeners do not throw: a throwing listener of `task:error` would end the poll loop.
- setTimeout and Date.now share one clock that never goes back.
- Retry-After in fractional seconds; milliseconds are integers.
- SchedulerModel.TimersAndCounts: ids are registered once; registering an id again would orphan the old record's timers.
- Job functions of the scheduler call it back only before their first await or from later events.
- LangRewrite.MeaningPreserved: asks for safe texts. That unsafe places do change a run is proved for paths and plain
  arguments (ConditionalKeptIff, IfKeptIff, CalleeKeptIff): elsewhere an unsafe place may be dead code.
- LangRewrite.TransformPreserves: rewrites all that is recognised; nested conditionals that jscodeshift leaves standing
  are covered by MeaningPreserved.
- LangRewrite: methods are looked up by receiver and name outside the program text; closures, tagged templates,
  `delete`, `var` hoisting out of removed blocks, getters, callbacks from outside code into the program, and a removed
  `if` as the whole body of a loop, which becomes an empty statement.
- `transform.ts`, which transform.js replaces.
- MessageSplitter.SendHtml: failing replies and `stripTags` are left out; HtmlParagraphs proves that the output of
  `markdownToHtml` has no empty paragraph. The other steps of `markdownToHtml` are not needed: whatever they yield is collapsed.
- The twin of the splitter in `src/channels/telegram.ts`.
- ResponseCaches.SizeBound: for non-empty keys, as the key is always a SHA-256 digest.
- Failover.ModelFailover.ExecuteWithFailover: no other call records anything between two attempts; error texts are left out.
- UsageTracking.UsageTracker.GetSummary: costs, latencies, rounding, sorting and the cut to 30 days of the presentation.
- `compatibility` reasons, and floating-point rounding: the arithmetic is exact.
- Ledger.TextStakeAddsUpIff: texts of digits and points. How signs, exponents, blanks, hexadecimals and words are read is
  a parameter; StakeBalancedIff and UnstakeBalancedIff hold for them too.
- JsNumbers.JoinedReads: numbers have at most 25 decimals and are printed without an exponent, as JavaScript does from
  0.000001 up to 10^21.
- Ledger.RewardLedger.VerifyTask: rewards are numbers; a text that reads as one is coerced by the multiplication, and
  creation of bounties, which also takes words, is left out.
- Ledger: addresses that are names of JavaScript object properties; creation and claiming of bounties.
- Bounties can be paid more than once, since approval does not look at the status: VerifyTask states conservation per approval.
- Display fields: run times and errors of jobs, error texts and the health report of models, commissions and dates of validators.
- The refresh of the model catalog and `src/lib/network-models.ts`: the single-flight idea of the poll loop again.

# Lock and lease verification

A Dafny model of a distributed lock and lease library, with proofs for every input, every run or every interleaving of
the model.

The library hands out fenced leases. A client acquires a lease for a key, receives a token larger than every token
granted for that key before it, renews while it works and releases when it is done. A client that pauses too long may
still write, and the datastore then rejects it by its token. The project follows that story from the bottom up.

* `Decimals.dfy`, `UnicodeText.dfy`: the text forms of tokens and owners. The digit-by-digit counter of the Redis
  script, the three token parsers, UTF-8 owner files under short reads, the UTF-16 surrogate scan.
* `LeaseMachine.dfy`: one abstract fenced lease and its properties over whole runs. `DurableObject.dfy` and
  `RedisScripts.dfy` are the two lease authorities as objects that update their stored state in place; each is
  related to the abstract lease over whole runs.
* `Fence.dfy`, `EndToEnd.dfy`: the fencing decision, the store it drives, and the whole system of lease authorities,
  clients and store, with clients that pause, crash, retry, duplicate and reorder.
* `Renewal.dfy`, `SupervisedLease.dfy`: the sticky renewal supervisor, alone and against an authority on a common clock.
* `Maintained.dfy`, `MaintainedOutcome.dfy`, `RenewalCadence.dfy`: the transaction that runs under a renewed lease, in every interleaving of work
  and renewal, and the timing argument that it never lets its own lease lapse.
* `LockDirectory.dfy`, `LocalFile.dfy`, `LocalFileHandle.dfy`, `LocalFileRecovery.dfy`, `RecoveryRace.dfy`: the portable
  filesystem lock and its recovery, one system call to a step, with crashes, alone and against each other.
* `Fiducia.dfy`: queued acquisition, where cancellation races with promotion at the server.
* `RetryTimer.dfy`, `RetryInterleaving.dfy`, `RetryProgress.dfy`: the shared retry timer, its wake-up handshake and its
  progress.

Where a natural claim is false of the code, the model keeps the code as it is and proves where the claim holds.

* A live supervisor does not imply a live lease. It does so exactly up to the safety margin before its deadline
  (`SlackIsTheMargin`).
* Confirming that a former owner is inactive does not make its recovery safe (`InactivityIsNotEnough`). Without a
  publication in the claim window it is (`ClaimsAreAuthentic`, `ExclusionSurvivesRecovery`), and with the path absent
  the window is dangerous exactly while an acquirer is alive (`QuiescenceIsExact`).
* Contention may leave a queue entry behind, exactly when the request id was queued before (`Fiducia.Acquire`,
  `AcquireUnderQueuedRequest`).
* The two lease authorities part exactly in the expiry millisecond of a server that still shows the key (`SideBySide`).
* A TypeScript read-back loses a leading U+FEFF and nothing else (`TypeScriptReadsBack`).

The inductions behind the theorems are named after what they keep. `StepKeepsInv` and its parts in each module take one
step: a call from inside or outside the lock directory (`CallFromInside`, `CallFromOutside`), an inspection or a claim
(`InspectionIsSafe`, `ClaimantKeepsInv`), a renewal and its neighbours, a wake-up (`WakeKeepsHandshake`), one removal by
swap (`TakeOne`). `NextStepAgrees` carries the agreement of the lease authorities over one request,
`GrantsComeFromTheAuthority` reads off where a client's knowledge of a token comes from, and `CachedDecisionIsUnsafe` is
the negative control for a fencing decision taken outside the transaction. Every induction is written out: automatic
induction is switched off for all lemmas.

`dafny verify dfyconfig.toml` checks the whole project.

## Model

| member | source | states |
|---|---|---|
| `Decimals.AddOne` | src/ts/src/upstash-redis.ts:55-71 | the carry loop over digits, least significant first, leaves the reversed digits of the value plus one, with a leading 1 exactly where the last carry overflows |
| `Decimals.Increment` | src/ts/src/upstash-redis.ts:49-72 | for a digit string of any length, leading zeros included, the script's text is the canonical decimal of its value plus one |
| `Decimals.LexIsNumeric` | src/ts/src/upstash-redis.ts:73-76 | Lua's string order on digit strings of equal length is numeric order |
| `Decimals.ExhaustionTestIsExact` | src/ts/src/upstash-redis.ts:73-76 | the length-then-lexicographic test rejects a canonical counter exactly when it exceeds 2^53 - 1 |
| `Decimals.ParsersAgree` | src/ts/src/fence.ts:53-94 | the Rust, Go and TypeScript parsers admit the same strings with the same values: exactly the canonical decimals of 0 to 2^64 - 1 |
| `Decimals.ParsePrint` | src/rust/fence.rs:38-55 | parsing and printing are inverse in all three runtimes |
| `Decimals.PrintValue` | src/go/fence.go:45-48 | the printed form of a number is canonical and denotes that number |
| `Decimals.ValuePrint` | src/go/fence.go:31-43 | a canonical text is the printed form of its value, so each number has one text |
| `UnicodeText.DecodeInvertsUtf8` | src/go/local_file_recovery.go:166-176 | strict UTF-8 decoding inverts encoding on every string |
| `UnicodeText.Utf8InvertsDecode` | src/go/local_file_recovery.go:166-176 | encoding inverts strict decoding wherever it succeeds, so no two byte strings decode alike |
| `UnicodeText.ReadOwner` | src/go/local_file_recovery.go:123-178 | whatever the pattern of short reads, the bounded read returns the whole file when it fits and is valid UTF-8, and otherwise fails |
| `UnicodeText.OwnerReadsBack` | src/go/local_file.go:353-364 | an owner of 1 to 512 code points takes 1 to 2048 bytes and decodes to itself |
| `UnicodeText.TypeScriptReadsBack` | src/ts/src/local-file.ts:476-499 | the TypeScript read-back equals the owner exactly when the owner does not start with U+FEFF |
| `UnicodeText.HasLoneSurrogate` | src/ts/src/local-file.ts:585-597 | the index loop reports a lone surrogate exactly when the code units are no encoding of any string |
| `LeaseMachine.RunInvariant` | managed/cloudflare-do/src/authority.js:93-155 | over every run a held token equals the counter, which has grown by the number of fresh grants |
| `LeaseMachine.GrantsAreConsecutive` | managed/cloudflare-do/src/authority.js:45-56 | fresh grants are numbered consecutively up to 2^53 - 1, and only the last number can be replayed, renewed or released |
| `LeaseMachine.PromiseStands` | managed/cloudflare-do/src/authority.js:98-124 | a reported expiry holds until it passes or its own holder renews or releases |
| `LeaseMachine.PromiseDecides` | managed/cloudflare-do/src/authority.js:98-183 | while a reported expiry holds, every answer is determined by it and the earlier calls: another holder meets contention, the same holder under another request id than the one the token is bound to is refused as another request, any other acquire of that holder is a replay, and renewal (for exactly its TTL from now) and release work for that holder and token only |
| `LeaseMachine.NoPromiseDecides` | managed/cloudflare-do/src/authority.js:126-136 | where no reported expiry holds, an acquire gets the next number for its full TTL or exhaustion, and renewal and release are refused |
| `LeaseMachine.GrantsAreDisjoint` | managed/cloudflare-do/src/authority.js:93-155 | with a non-decreasing clock a fresh grant is minted only after every earlier promised expiry has passed, so live intervals of distinct tokens are disjoint |
| `LeaseMachine.ExpiryIsInvisible` | managed/cloudflare-do/src/authority.js:209-221 | bisimulation: states that agree up to an expired lease answer all later requests alike and keep agreeing |
| `DurableObject.LockLeaseAuthority.constructor` | managed/cloudflare-do/src/authority.js:58-79 | a missing row starts as the initial lease; any stored row is kept as it is, and is a valid lease exactly when its columns are coherent |
| `DurableObject.LockLeaseAuthority.ClearLease` | managed/cloudflare-do/src/authority.js:87-91 | every lease column is cleared and the counter is kept |
| `DurableObject.LockLeaseAuthority.Acquire` | managed/cloudflare-do/src/authority.js:93-155 | row and reply are those of the abstract lease; contention, another request, replay, fresh grant, exhaustion and a thrown error have their exact conditions on the stored row, with the token, expiry and request id of each; a refusal leaves row and alarm as they were |
| `DurableObject.LockLeaseAuthority.Renew` | managed/cloudflare-do/src/authority.js:157-183 | row and reply are those of the abstract lease; each invalid field has its own refusal and changes nothing, `expired` and `not_owner` have their exact conditions, and the alarm moves exactly on success |
| `DurableObject.LockLeaseAuthority.Release` | managed/cloudflare-do/src/authority.js:185-207 | row and reply are those of the abstract lease; each refusal and its reason has its exact condition; a released or expired lease leaves no row and no alarm |
| `DurableObject.LockLeaseAuthority.Alarm` | managed/cloudflare-do/src/authority.js:209-221 | an alarm at any time changes nothing the abstract lease shows at that time, and clears only an expired row |
| `DurableObject.LockLeaseAuthority.Serve` | managed/cloudflare-do/src/authority.js:93-221 | over any run with early, late, repeated or missing alarms the replies are those of the abstract lease on the calls alone |
| `DurableObject.LockLeaseAuthority.Answer` | managed/cloudflare-do/src/authority.js:93-207 | one valid call is one step of the abstract lease |
| `DurableObject.AdmittedTokens` | managed/cloudflare-do/src/authority.js:34-43 | a token argument is admitted as the text of n exactly when it is the number n up to 2^53 - 1 or the canonical text of n up to 2^64 - 1, n positive |
| `DurableObject.TokenTextIsIdentity` | managed/cloudflare-do/src/authority.js:164-166 | comparing an admitted token with the stored text compares the numbers |
| `RedisScripts.RedisAuthority.Acquire` | src/ts/src/upstash-redis.ts:27-82 | the script agrees with the abstract lease if and only if it does not run in the expiry millisecond of a server that still shows the key; both error replies are characterised, and only a fresh grant writes |
| `RedisScripts.RedisAuthority.NextToken` | src/ts/src/upstash-redis.ts:45-76 | a corrupt counter is refused, an exhausted one is refused, any other yields the decimal of its successor |
| `RedisScripts.RedisAuthority.Renew` | src/ts/src/upstash-redis.ts:85-94 | renews exactly for the shown holder and token; agrees with the abstract lease if and only if it does not meet that holder and token in the expiry millisecond of a server that still shows the key |
| `RedisScripts.RedisAuthority.Release` | src/ts/src/upstash-redis.ts:97-104 | deletes exactly for the shown holder and token; agrees with the abstract lease under the same condition as renewal |
| `RedisScripts.RedisAuthority.Serve` | src/ts/src/upstash-redis.ts:27-104 | over any run of valid requests the replies are those of the abstract lease if and only if the server hides a key in its expiry millisecond or the run has no acquire, and no renewal or release by its owner, that meets a shown lease in it |
| `RedisScripts.SideBySide` | src/ts/src/upstash-redis.ts:27-104 | both authorities, opened empty, answer a run alike (grants, tokens, replay flags, expiries, refusals and exhaustion, with any alarms at the Durable Object) if and only if that condition holds |
| `Fence.DecisionAtStore` | src/rust/fence.rs:250-293 | at a coherent store a write applies exactly when it is valid and its token beats the watermark; the four kinds, the reported tokens and the new store are determined, and an error is always the write's own first defect |
| `Fence.EvaluateIsExact` | src/rust/fence.rs:250-293 | on any watermark, also a foreign or invalid one: the order of errors, the kind by token order and operation identity, and both reported tokens and the applied flag by the kind |
| `Fence.ValidIsExact` | src/rust/fence.rs:181-193 | a request is admitted exactly when every field fits its bound in bytes, the payload is a lower-case SHA-256 and absent optional fields do not matter |
| `Fence.DeliverIsMaximum` | src/rust/fence.rs:127-143 | after any deliveries the watermark of each pair dominates every valid token delivered and is one of them or the initial one |
| `Fence.AppliedAreRunningMaxima` | src/rust/fence.rs:250-293 | a request of a sequence is applied exactly when it is a strict running maximum of its (tenant, resource) pair, a notion that mentions no store |
| `Fence.WatermarkIsLastApplied` | src/rust/fence.rs:209-219 | after any prefix each pair's watermark is its last applied request, field for field, and other pairs keep theirs |
| `Fence.RedeliveryIsHarmless` | formal/fencing-model/src/lib.rs:228-265 | redelivering requests already seen, in any order and number, applies nothing and leaves the store as it was |
| `EndToEnd.AppliedWritesAreFenced` | formal/fencing-model/src/lib.rs:228-265 | in every reachable state the applied writes of a pair carry strictly increasing tokens, each granted to the client that wrote it and to no other |
| `EndToEnd.NoStaleWriteEver` | src/rust/fence.rs:127-143 | once a grant's write has applied, no write of that or an earlier grant applies in any continuation |
| `EndToEnd.AppliedNeverUndone` | formal/fencing-model/src/lib.rs:254-265 | the log of applied writes only grows, through crashes and retries |
| `EndToEnd.ConfirmedExactlyOnce` | formal/fencing-model/src/lib.rs:267-311 | a write reported as advanced or replayed has taken effect exactly once |
| `EndToEnd.AnswersAreTrue` | formal/fencing-model/src/lib.rs:267-311 | in every reachable state every answer is true of the log: a decided write has its token reached, a stale one is overtaken by a strictly higher token, a reuse meets its token under another operation or payload, an advanced or replayed one is in the log, and an error is the defect of an invalid write |
| `EndToEnd.CommitAppliesTheHigher` | formal/fencing-model/src/lib.rs:283-294 | a commit appends exactly its own entry and reports that it advanced if and only if the write is valid and above every applied token of its pair |
| `EndToEnd.LatestGrantPrevails` | src/rust/fence.rs:127-143 | whatever is in flight, a valid write under the last token minted for its key is applied by its commit unless one under that token already was |
| `EndToEnd.GrantAdmitsWrites` | managed/cloudflare-do/src/authority.js:126-150 | a granted acquire is all that its client needs to send a write under that token |
| `EndToEnd.CrashFreeCompletion` | formal/fencing-model/src/lib.rs:313-333 | with all other actors interleaved and crashing as they like, an attempt that crashes no more is done if and only if it has had its remaining turns, at most three, and then keeps its answer |
| `EndToEnd.NeverBlocked` | formal/fencing-model/src/lib.rs:321-330 | an attempt is done exactly when it has no next step, so only scheduling keeps it from being done |
| `Renewal.ScheduleIsExact` | src/rust/renewal.rs:442-485 | scheduling succeeds exactly for a TTL in range, a policy inside it and a deadline in the clock domain; each error has its condition, the closing policy check never fires and no addition wraps |
| `Renewal.NewIsExact` | src/rust/renewal.rs:185-201 | supervision starts exactly for inputs in range, with the invariant and both instants as stated; each error has its condition |
| `Renewal.AcceptIsExact` | src/rust/renewal.rs:319-380 | a renewal is admitted exactly when it is timely, keeps identity and token, advances the reported deadline and can be scheduled |
| `Renewal.AcceptReasons` | src/rust/renewal.rs:319-380 | an admitted answer leaves its grant and both instants counted from its completion; every rejected one has its reason, in order of precedence |
| `Renewal.DecideIsExact` | src/rust/renewal.rs:224-259 | when a renewal is due, when to check in again, and which loss is reported, all by if and only if |
| `Renewal.NeverLostIffServed` | src/rust/renewal.rs:224-380 | over any calls a supervisor is never lost if and only if every call is made in time and every due renewal is answered in time and validly; its next renewal always comes before its deadline |
| `Renewal.StepDescends` | src/rust/renewal.rs:224-393 | every call keeps the invariant, identity and policy, moves the authority deadline only forward, and after a loss changes nothing and contacts no one |
| `Renewal.RunsAreSticky` | src/rust/renewal.rs:224-393 | the same over whole runs: after the first loss every call returns that loss, and live supervisors keep last observation and next renewal before a deadline of at most 2^53 - 1 |
| `Renewal.RenewalSupervisor.Start` | src/rust/renewal.rs:185-201 | the object starts in the specified state or fails with the specified reason |
| `Renewal.RenewalSupervisor.Decision` | src/rust/renewal.rs:224-259 | a renewal is due exactly when nothing was lost, the reading is in the clock domain and between last observation and deadline, and the due instant has come; otherwise the check-in or the recorded loss |
| `Renewal.RenewalSupervisor.AssertLive` | src/rust/renewal.rs:262-270 | reports exactly the recorded loss after observing the clock |
| `Renewal.RenewalSupervisor.CheckpointAt` | src/rust/renewal.rs:275-316 | contacts the authority exactly when a renewal is due; a failure is recorded with its cause, an answer is admitted exactly when it renews and then replaces grant and both instants, and without contact nothing is rescheduled |
| `Renewal.RenewalSupervisor.AcceptRenewal` | src/rust/renewal.rs:319-380 | an answer is admitted exactly when it renews; admitted, it replaces grant and both instants, rejected, it leaves them alone |
| `Renewal.RenewalSupervisor.Record` | src/rust/renewal.rs:387-392 | the first loss is the one that is kept |
| `SupervisedLease.WaitMeansHeld` | src/rust/renewal.rs:224-259 | with round trips within the safety margin and no foreign release, Wait means that the authority's lease for that token is live, and stays so until the next check |
| `SupervisedLease.LiveBeforeMargin` | src/rust/renewal.rs:224-259 | in every run a supervisor that is live more than the safety margin before its deadline has a live lease at the authority |
| `SupervisedLease.DeadAtMargin` | src/rust/renewal.rs:314-315 | for every admitted configuration some run reaches exactly that instant with a live supervisor and a dead lease |
| `SupervisedLease.SlackIsTheMargin` | src/rust/renewal.rs:442-485 | a live supervisor implies a live lease at a given distance before the deadline, in all runs, if and only if the distance is at least the safety margin |
| `SupervisedLease.RenewalWorks` | src/ts/src/cloudflare-do.ts:112-127 | in every reachable state with a live supervisor, observing a due renewal sends it, the authority renews when reached before the margin, an answer in time is admitted with a full TTL from its arrival, and a lost one ends supervision |
| `Maintained.CommitOnlyAfterFinalRenewal` | src/go/maintained.go:123-175 | in every interleaving COMMIT directly follows a successful final renewal sent after the work had succeeded and the maintainer had exited, and every renewal kept key, holder, token and TTL |
| `Maintained.ReleasedExactlyOnce` | src/go/maintained.go:92-101 | RELEASE is called at most once, for an acquired grant, with transaction and maintainer over; a finished run has released exactly what it acquired |
| `Maintained.SuccessIsExact` | src/go/lease.go:126-140 | a run succeeds exactly when the commit succeeded and the authority confirmed the release |
| `Maintained.NeverStuck` | src/go/maintained.go:346-381 | a reachable run awaits an answer exactly when it is not finished; while the main goroutine joins, it is the reply to the pending renewal, whatever it says, or the exit of the maintainer |
| `Maintained.AnswersFinish` | src/go/maintained.go:123-175 | every awaited answer, good or bad, brings the end closer: from any reachable state at most 26 are awaited one after another, and then the run has finished |
| `MaintainedOutcome.JoinDecides` | src/go/maintained.go:158-170 | at the join the final renewal is sent if and only if the transaction began, the lock was got, the work succeeded, no periodic renewal failed and the caller had not cancelled; otherwise the run is undone, with a work error if only the cancellation stood against it |
| `MaintainedOutcome.CommitIffKept` | src/go/maintained.go:164-174 | COMMIT is called if and only if the final renewal came back with the grant kept |
| `MaintainedOutcome.GoodRunCommits` | src/go/maintained.go:123-175 | a finished run all of whose answers were good, without cancellation, has committed and reports success |
| `MaintainedOutcome.FailuresAreRetained` | src/go/errors.go:84-97 | whatever of transaction, lock, work, renewals, commit, rollback or release has failed is named by the error returned, itself or among those it retained |
| `MaintainedOutcome.MaintainerRenews` | src/go/maintained.go:346-371 | every tick is answered by a renewal call, and the maintainer exits only on a renewal that did not keep the grant, on cancellation or for the join |
| `MaintainedOutcome.LockLoopDecides` | src/go/maintained.go:177-227 | the work begins exactly with the lock; every other end of the loop has its cause, a failed renewal before the cancellation before the database |
| `RenewalCadence.NoSelfInflictedLapse` | src/go/maintained.go:346-381 | with an interval of at most half the TTL and round trips under half the interval, the lease is live at every instant until the run is done, so no periodic or final renewal arrives at or after the expiry, and none is refused |
| `RenewalCadence.RenewalsAreSent` | src/go/maintained.go:358-371 | time is never blocked, a due tick sends a renewal, one that arrives makes the lease last a full TTL, and the run is done only after its final renewal |
| `LocalFile.MutualExclusion` | src/go/local_file.go:106-185 | for any number of processes interleaved at every system call, failing and crashing, at most one is between its winning mkdir and its rmdir, and the directory holds only what that one put there |
| `LocalFile.OwnerIsNeverPartial` | src/go/local_file.go:139-183 | the name `owner` only ever denotes the complete token of the process inside |
| `LocalFile.CrashedHolderIsNeverStolen` | src/go/local_file.go:106-137 | after a crash inside, the directory never changes and no other process enters |
| `LocalFile.AcquireSucceeds` | src/go/local_file.go:139-185 | with the other processes interleaved and crashing as they like, a process that won the mkdir and meets no fault never backs out and holds the lock after at most six calls and one for each byte of its token |
| `LocalFile.AcquireAdvances` | src/ts/src/local-file.ts:181-249 | in every reachable state the next fault-free call of a winner succeeds, and the last one publishes its whole token |
| `LocalFile.BackingOutFrees` | src/go/local_file.go:159-183 | a winner that met one fault removes marker and directory |
| `LocalFile.MkdirDecides` | src/go/local_file.go:107-137 | a fault-free mkdir wins exactly on an absent path, and contention is told exactly to who sees the path or has lost twice |
| `LocalFile.InspectionMatches` | src/go/local_file_recovery.go:50-118 | in every reachable state an inspection reports an absent path, the published owner or a crash window, and never a compromised lock |
| `LocalFile.ReleaseSucceeds` | src/go/local_file.go:230-269 | with the other processes interleaved and crashing as they like, a release that meets no fault is never refused and is over, successfully, exactly after its four calls |
| `LocalFile.ReleaseAdvances` | src/ts/src/local-file.ts:112-164 | in every reachable state the next fault-free call of a release succeeds, and the last one leaves the path absent |
| `LocalFileHandle.LocalFileLock.TryAcquire` | src/go/local_file.go:88-186 | without faults or races it acquires an absent path and is busy on a present one; acquired means the complete marker and nothing else, busy and invalid input change nothing, no failure leaves a marker, and one failing call leaves no trace |
| `LocalFileHandle.LocalFileLock.Publish` | src/go/local_file.go:139-183 | with any call failing on its own, partial writes included, the whole token stands under `owner` or none does, and a single failure is cleaned up completely |
| `LocalFileHandle.LocalFileLock.Release` | src/go/local_file.go:230-269 | idempotent after success, sticky once the marker is gone but the directory is not; without faults it succeeds exactly when the directory holds only this owner's marker and otherwise reports a compromised lock |
| `LocalFileRecovery.AtMostOneRecovers` | src/go/local_file_recovery.go:184-244 | in every interleaving of recoverers, crashing anywhere, at most one has recovered, and only the authenticated marker and then the directory are removed |
| `LocalFileRecovery.ExactlyOneRecovers` | src/ts/src/local-file-recovery.ts:128-216 | when all calls are over and one named the stored owner, exactly one returned true and the directory is gone; with no right name nothing changed |
| `LocalFileRecovery.EveryCallEnds` | src/go/local_file_recovery.go:184-244 | whatever the others do, a call that does not crash ends within ten of its own system calls |
| `LocalFileRecovery.LosersAreTold` | src/go/local_file_recovery.go:195-234 | in every reachable state a call is told false exactly when it found the path gone at first or has lost the claim and finds the path gone or emptying, refused exactly for a vanished path, a missing marker or another owner, and wins the claim exactly while the marker is there |
| `LocalFileRecovery.RemovalIsExact` | src/go/local_file_recovery.go:237-283 | on any directory at all the claimant removes its own claim and an empty directory, takes an absent one for removed and refuses anything else |
| `LockDirectory.ReadIsExact` | src/go/local_file_recovery.go:50-118 | an undisturbed inspection reports held exactly for a directory with nothing but the encoding of an admitted owner, and incomplete exactly for a crash window |
| `LockDirectory.MarkerIsOwner` | src/go/local_file_recovery.go:157-178 | a marker is accepted exactly when it is the encoding of an admitted owner |
| `RecoveryRace.ClaimsAreAuthentic` | src/ts/src/local-file-recovery.ts:143-215 | with acquirers, releasers and recoverers on one directory, a recoverer claims only the marker it named in every run in which nothing is published between a second owner read and its rename |
| `RecoveryRace.ExclusionSurvivesRecovery` | src/go/local_file_recovery.go:178-244 | in such runs, with every recovered owner crashed, at most one live process is inside, its directory is in shape, and only markers of crashed owners are claimed |
| `RecoveryRace.TakesAnotherLock` | src/go/local_file_recovery.go:215-244 | from any state with a recoverer at its claim and the path absent, any live process outside can acquire the lock and lose it to that recoverer |
| `RecoveryRace.QuiescenceIsExact` | src/ts/src/local-file-recovery.ts:121-125 | once a run with both promises has a recoverer at its claim and the path absent, some continuation makes it take another owner's lock if and only if some process is alive: quiescence, and not just an inactive owner, is the condition |
| `RecoveryRace.InactivityIsNotEnough` | docs/local-file-recovery.md:29-36 | for any two owners a run in which the first has crashed for good, one recoverer finishes, the second owner acquires, and the other recoverer takes its lock down |
| `RecoveryRace.EvictedReleaseIsRefused` | src/go/local_file.go:243-250 | an evicted owner whose path holds another marker, or none, releases nothing |
| `Fiducia.Acquire` | src/go/fiducia.go:248-335 | timeout leaves neither queue entry nor grant and contention leaves nothing new; at a server otherwise quiet during the call, contention leaves something if and only if the request was queued before; success is the grant the server holds. In a calm series the call succeeds if and only if a granted answer came, and without one a waiting call times out if and only if its budget was spent; a cancellation is a transport failure that, cleaned up calmly, leaves nothing behind |
| `Fiducia.PollOnce` | src/go/fiducia.go:262-333 | one round: a granted answer is returned at once, whether waiting or not, a lost or cancelled one is a transport failure, and another round is due exactly when none of the ends applies |
| `Fiducia.CancelQueuedAcquire` | src/go/fiducia.go:201-245 | success means that the server holds nothing for this request and that the log ends with a cancellation or with the release of the raced grant; with every exchange delivered it succeeds |
| `Fiducia.CancelThen` | src/ts/src/fiducia.ts:134-252 | a retryable error is reported only after a safe cancellation, any other as a transport failure |
| `Fiducia.AcquireUnderQueuedRequest` | src/go/fiducia.go:316-318 | the client, called without waiting under a request id that is queued behind another holder, reports contention with its entry still there |
| `Fiducia.ForeignIsHarmless` | src/go/fiducia.go:201-245 | promotion, expiry and other clients never give a request that has nothing at the server anything back, nor re-queue one that has left the queue |
| `RetryTimer.FireDue` | src/rust/portable_sleep.rs:41-54 | one swap-remove pass takes out exactly the due requests, conserves the multiset of the others, wakes each fired sleeper's stored waker once and touches no other state |
| `RetryInterleaving.NoLostWakeup` | src/rust/portable_sleep.rs:96-106 | in every interleaving, a sleeper the scheduler is done with that stands between polls has had the waker of its latest poll woken, and no sleeper is woken twice |
| `RetryInterleaving.ReadyReturns` | src/rust/portable_sleep.rs:96-106 | once ready, a sleeper returns within two steps of its own, whatever the others do |
| `RetryInterleaving.FiredOnceAndNeverEarly` | src/rust/portable_sleep.rs:38-78 | a request is in channel or vector exactly once until it is fired and never after, and no sleep is fired or returns before its deadline |
| `RetryInterleaving.PassLeavesNothingDue` | src/rust/portable_sleep.rs:42-54 | at the end of a pass every remaining deadline lies after the clock reading of that pass |
| `RetryInterleaving.BlockedNoLongerThanMeasured` | src/rust/portable_sleep.rs:56-62 | the receive timeout is no earlier than some deadline, and the blocked thread may leave as soon as any deadline has passed by the time its measuring took |
| `RetryProgress.EveryPassEnds` | src/rust/portable_sleep.rs:41-61 | whatever comes in between, the thread reaches its blocking receive after boundedly many steps of its own |
| `RetryProgress.ReceivedInOrder` | src/rust/portable_sleep.rs:61-76 | requests are taken in the order they were sent: each moves up with every request taken and is then in the timer's hands for good |
| `RetryProgress.DueIsFired` | src/rust/portable_sleep.rs:42-54 | a request that is due when a pass reads the clock is fired within that pass |

## Left out

- HTTP, JSON, bearer checks, Workers wiring, SQL and error texts; servers, databases and the network appear as their outcomes.
- `DurableObject.LockLeaseAuthority.Acquire`: promises nothing on a row torn by outside edits (lease columns set in part, or stored token text that is not canonical), while a corrupt counter is modelled; holders and request ids are Unicode strings, so lone surrogates in a JavaScript request are not represented, nor are non-integer numbers, which the code refuses.
- `RedisScripts.RedisAuthority.Serve`: starts from a complete lease hash as the scripts write it; the two errors for a damaged hash are in the contract of the acquire script alone.
- Request ids at Redis: the scripts take none, so the comparison of the authorities is over requests without one.
- `SupervisedLease.WaitMeansHeld`: one drift-free clock, acquire and renew round trips of at most the safety margin; client retry loops other than the replay followed by a renewal are not modelled.
- `RenewalCadence.NoSelfInflictedLapse`: assumes prompt scheduling, that is, due ticks and joins are served at once; durations are whole milliseconds, so truncation of a sub-millisecond TTL is not modelled.
- `Maintained.CommitOnlyAfterFinalRenewal`: goroutines are steps of a transition system on values, not objects; work that panics skips the release by design and is not modelled.
- `Maintained.AnswersFinish`: counts answers and not ticks, so a ticker chosen over the stop signal again and again is left to the fairness of the runtime.
- `Maintained.SuccessIsExact`: error texts are dropped; kinds, steps and the chain of retained causes are kept.
- `Renewal.RenewalSupervisor.CheckpointAt`: the asynchronous renewal is its outcome and its completion time; sub-millisecond durations and the Go and TypeScript number widths are not modelled.
- `LocalFile.MutualExclusion`: permission bits, symbolic and hard links, inode identity, Windows path rules and deletion-pending retries are left out; a path is one directory and its names.
- `LocalFileHandle.LocalFileLock.TryAcquire`: the parent directory is one call that may fail, and another process shows only as a path that is there or gone for an instant; lasting interference is in `LocalFile`.
- `LocalFileRecovery.ExactlyOneRecovers`: I/O failures are excluded and the bounded owner read is one step; the identity recheck that turns a race into an error is not modelled.
- `Fiducia.Acquire`: the server is a faithful queueing server written for this model, and a call is observed for a finite series of polls (`StillWaiting` after the last).
- `RecoveryRace.QuiescenceIsExact`: characterises the window for an absent path, where no other call has to come first; a directory that still stands is covered by the safe direction only.
- `RetryInterleaving.NoLostWakeup`: atomics are interleaved step by step; the mutex between store and take orders the ready flag, which makes this sound, and weaker memory orders are not modelled.
- `RetryInterleaving.BlockedNoLongerThanMeasured`: how late the operating system lets a timed receive or a thread continue is not bounded.
- The other runtimes' supervisors, the single-task Rust maintained transaction, and destructors of the Rust file lock: variants of the modelled protocols.
- Plan selection, coordinated layering, configuration validation, key hashing, Redlock and BeamScale adapters, generators and deployment.

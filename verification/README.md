# ShellHub: device enrolment and its neighbouring protocols, in Dafny

This project models the parts of ShellHub that keep state over whole runs, and proves what those runs keep.

* `Devices`, `Enrollment`, `DeviceRuns`, `DeviceService`: the life of a device row in a namespace. The first
  three define every service call on rows and install keys, and prove what runs of them keep. `DeviceService` is
  the imperative service with its four denormalised counters and its write order; it is proved to compute the
  row-level functions, and each counter is proved exact where it is, and bounded by its rows where it is not.
* `KeyUsage`: install-key uses when any number of enrolments interleave.
* `Pairing`: pre-authorised pairing codes claimed side by side over an expiring cache.
* `Lockout`: the login lockout, its escalation and the exact rate it enforces.
* `AccessPolicy`: the authorisation decision against a specification on the set of policies.
* `Heartbeat`: the keep-alive batcher, from submission to store write.
* `RevDial`: which connection a reverse dial gets.
* `LoginCode`, `EnvOverride`, `WsAdapter`: login codes, the container environment override and the WebSocket
  byte stream.
* `Prelude`, `InstallKeys`: shared vocabulary and the install key's own rules.

Code that mutates state one call at a time is modelled by classes and methods. Protocols whose calls
interleave (`KeyUsage`, `Pairing`, `RevDial`) are state machines: a run is any sequence of atomic steps, and a
step that is not possible where it comes is skipped.

To verify the project, run `dafny verify dfyconfig.toml` in this directory.

## Assumptions

* A device identifier is a hash of MAC, public key and tenant. The hash is taken to be injective and is
  represented by that triple. An install key is represented by its digest.
* Webhook, billing, licence and merge-hook answers, the clock, and the answers of regular expressions and
  address parsing are parameters, so they are arbitrary. A webhook failure is one of the answers.
* Store writes in the device service succeed, and its calls run one at a time. `UpdateDeviceStatus` is one
  transaction.
* Two calls need care from the caller, and the conditions are exact. `RenameDevice` keeps names distinct only
  if the new name is free, because it looks for no conflict. `UpdateDeviceStatus` keeps `RemovedAt` in step with
  the status only on rows that are not removed, because it does not touch `RemovedAt`; the second condition is
  needed for the mark, for exact counters and for acceptances to last, and for nothing else.
* A pairing code is fresh when minted. Single use holds in every run in which no SetNX wins over another key that
  has enrolled or is being accepted. A SetNX that comes while the code entry its call read is still live never
  does. Nothing is assumed about how long an accept, an outcome write or a release takes, or whether the last two
  arrive.
* Times are whole nanoseconds. Lockout arithmetic is done on reals.

## Where code and comments differ

* `pkg/cache/cache.go` lists a counter life of 3 minutes after the third failure. The code computes 2.5 and
  cuts it to 2; the model follows the code.
* `mergeDevice` is described as keeping the old device's name. That holds inside the transaction; on
  re-registration and reconciliation `authDevice` afterwards writes back the name it had read. The model does
  the same, and the proof shows that name is then free.

## Model

| member | source | states |
|---|---|---|
| Devices.AcceptGoesThroughIff | server/api/services/device.go:338-395 | a row that is not accepted becomes so exactly if either an accepted device has its MAC, no accepted device with another MAC has its name and the merge hook agrees, or no accepted device has its MAC or name, the accepted counter is below a positive ceiling, and billing and licence agree; otherwise nothing changes |
| Devices.RefusalSaysWhy | server/api/services/device.go:545-597 | each refusal is given exactly when its own condition stands in the way and none before it does |
| Devices.AcceptedRowTakesOver | server/api/services/device.go:496-537 | the accepted row is the stored one with its status changed and the name of the accepted device with its MAC, which is gone; all other rows stay |
| Devices.MissingAndAcceptedAreRefused | server/api/services/device.go:319-329 | missing and accepted rows are refused as such and stay as they are |
| Devices.OtherStatusesAreSetIff | server/api/services/device.go:331-399 | any status but accepted is set on exactly the rows that are not accepted, and changes nothing else |
| Devices.AcceptKeepsUnique | server/api/services/device.go:338-395 | accepting a row, by merge or not, leaves accepted MACs and names pairwise distinct, and leaves free the name the row had before |
| Devices.AcceptKeepsCeiling | server/api/services/device.go:349-394 | accepting never takes the accepted rows over a positive ceiling, although the merge path does not check it and the other checks a counter that may stand too high |
| Devices.UpdateStatusTouches | server/api/services/device.go:496-537 | a status update leaves every other row alone, or deletes the one accepted row whose MAC the newly accepted row has |
| Devices.UpdateStatusKeepsCore | server/api/services/device.go:310-417 | a status update on any row, from any status to any other, keeps accepted MACs and names distinct and the ceiling |
| Devices.UpdateKeepsMarkIffNotRemoved | server/api/services/device.go:397-399 | a status update that changes a row keeps "RemovedAt is set exactly on removed rows" if and only if the row was not removed and does not become so |
| InstallKeys.PolicyDecidesIff | server/api/services/enrollment.go:94-141 | a key accepts exactly whom its mode admits: anyone when pairing or automatic, listed MACs, whom the webhook accepts; rejects exactly unlisted MACs and whom the webhook rejects; and leaves all others pending |
| InstallKeys.ValidIffInForce | pkg/models/install_key.go:178-194 | a key is valid exactly if it is not revoked, paused, past its expiry or used up, and has room exactly if unlimited or below its limit |
| InstallKeys.EditTakesEffect | server/api/services/install-key.go:346-441 | an edit that goes through sets every field it names and no other, and never the use count |
| InstallKeys.EditIsRefusedIff | server/api/services/install-key.go:317-410 | exactly when an edit is refused |
| Enrollment.ReleaseUndoesReserve | server/api/services/enrollment.go:163-183 | giving a reserved use back restores the keys exactly, so the guard at zero never bites |
| Enrollment.ApplyDecisionSpendsOneUsePerAccept | server/api/services/enrollment.go:148-211 | applying a decision moves the pending row to the status returned, touches no other row but a merged one, and spends one use exactly when it accepts |
| Enrollment.ApplyDecisionKeepsCore | server/api/services/enrollment.go:148-211 | it keeps MACs, names and the ceiling, and leaves free the name an accepted row had before |
| Enrollment.AuthSettles | server/api/services/auth.go:213-429 | AuthDevice on any state: refusals change nothing; otherwise the reply carries the status of the row, the row carries no removed mark, other rows are untouched or merged, and marks that agreed with statuses still do |
| Enrollment.WriteBackKeepsCore | server/api/services/auth.go:416-420 | writing a row back with unchanged MAC and status keeps MACs, names and the ceiling if no other accepted row has its name |
| Enrollment.SettleKeepsCore | server/api/services/auth.go:384-416 | deciding and then writing the caller's copy back, with the name read before a merge, keeps MACs, names and the ceiling |
| Enrollment.EnrolKeepsCore | server/api/services/auth.go:263-340 | creating and deciding a new device keeps them |
| Enrollment.ReRegisterKeepsCore | server/api/services/auth.go:353-397 | re-registering a row keeps them, also when the row is marked removed but is not |
| Enrollment.ReconcileKeepsCore | server/api/services/enrollment.go:229-256 | reconciling a pending device keeps them |
| Enrollment.AuthKeepsCore | server/api/services/auth.go:213-429 | AuthDevice as a whole keeps them, whatever the marks |
| Enrollment.UnidentifiedIff | server/api/services/auth.go:221-228 | a call is refused for its identity exactly if it sends none, or neither MAC nor host name |
| Enrollment.PresentedKeyIsChosenIff | server/api/services/auth.go:166-175 | a presented key is used exactly if it is a user's key in force, and the call is refused otherwise |
| Enrollment.KeylessChoiceIff | server/api/services/auth.go:177-202 | without one a pairing uses the pairing key, others the legacy key, and only a legacy key out of force refuses the call |
| Enrollment.DecisionIsAppliedIff | server/api/services/enrollment.go:148-211 | a decision to accept succeeds exactly if the key has a use left and the device is acceptable, a decision to reject always |
| Enrollment.EnrollingDeviceIsDecidedByItsKey | server/api/services/auth.go:263-397 | a new or removed device that is not refused is accepted exactly if its key admits it, has a use left and the device is acceptable; rejected exactly if its key turns it away; pending otherwise |
| Enrollment.ReconnectIsDecidedByTheStoredKey | server/api/services/enrollment.go:229-256 | a known device's call changes nothing unless its stored key is in force, in webhook or allowlist mode and not asked within the last minute; then the call is stamped and the key decides as for a new device |
| Enrollment.ReconnectsAreThrottled | server/api/services/enrollment.go:234-236 | a device left pending is not evaluated again within a minute, however often it calls |
| Enrollment.NewDeviceIsRecorded | server/api/services/auth.go:291-340 | a new device's row holds its MAC, its key and the lower-cased host name, or the MAC with dashes, which gives way only to the name of the device it succeeds |
| Enrollment.ReturningDeviceIsRecorded | server/api/services/auth.go:353-420 | a returning device keeps its row under the key it comes with, without the removed mark |
| DeviceRuns.DeletionTakesEffect | server/api/services/device.go:203-227 | an accepted row is kept as removed and marked with the instant, any other is gone, and no other row changes |
| DeviceRuns.RenameTakesEffect | server/api/services/device.go:243-248 | a rename always takes effect up to case and touches nothing else |
| DeviceRuns.UpdateNameTakesEffectIff | server/api/services/device.go:430-446 | UpdateDevice writes a new name exactly if it differs up to case and no accepted device holds it |
| DeviceRuns.SweepTakesEffect | server/api/services/task.go:185-262 | exactly the rows of the batch marked before the cutoff are dropped |
| DeviceRuns.EphemeralSweepTakesEffect | server/api/services/task.go:288-327 | exactly the batch is dropped |
| DeviceRuns.KeyCallsTakeEffect | server/api/services/install-key.go:184-275 | a fresh unused key is there afterwards, and an edit that is not refused is carried out |
| DeviceRuns.PairingSucceedsIff | server/api/services/device-pairing.go:404-418 | a pairing succeeds exactly if the enrolment accepts the device or the device is acceptable to the accept that follows |
| DeviceRuns.RenameKeepsNamesUniqueIffSafe | server/api/services/device.go:232-253 | RenameDevice keeps accepted names distinct if and only if the row is not accepted, the name is unchanged up to case, or the new name is free |
| DeviceRuns.RenameCanDuplicateAName | server/api/services/device.go:243-248 | a concrete rename that leaves two accepted devices with one name |
| DeviceRuns.UpdateNameKeepsCore | server/api/services/device.go:419-449 | UpdateDevice, which looks for a conflict, keeps MACs, names and the ceiling |
| DeviceRuns.AcceptPairingKeepsCore | server/api/services/device-pairing.go:383-419 | materialising and accepting a paired device keeps them |
| DeviceRuns.StepKeepsCore | server/api/services/device.go:192-449 | every call and clean-up job keeps them, with a condition on RenameDevice alone |
| DeviceRuns.RunKeepsCore | server/api/services/device.go:192-449 | in every run whose renames are safe accepted devices share neither MAC nor name, the ceiling holds, and the counter it is checked against never falls short |
| DeviceRuns.StepKeepsMark | server/api/services/device.go:192-449 | every call keeps RemovedAt set on exactly the removed rows, if status updates keep off removed rows |
| DeviceRuns.RunKeepsMark | server/api/services/device.go:192-449 | the same over every run, with no other condition |
| DeviceRuns.OwnCallSparesAcceptedIff | server/api/services/auth.go:353-397 | on any state, an accepted device's own call changes nothing if and only if its row carries no removed mark or the call is refused for want of identity, host name or key |
| DeviceRuns.AcceptanceIsUndoneIffRowWasRemoved | server/api/services/auth.go:353-397 | the device's next call disturbs a fresh acceptance if and only if the accepted row was a removed one and the call is not refused |
| DeviceRuns.AcceptingARemovedRowIsUndoneByItsNextCall | server/api/services/auth.go:353-373 | a concrete run without the guard: a removed row is accepted, and the device's next call makes it pending |
| DeviceRuns.EnrolmentSparesAccepted | server/api/services/auth.go:341-429 | AuthDevice leaves an accepted row exactly as it was or merges it, unless it is the device's own call on a row marked removed |
| DeviceRuns.PairingSparesAccepted | server/api/services/device-pairing.go:404-416 | the same for accepting a pairing |
| DeviceRuns.AcceptedIsStable | server/api/services/device.go:324-329 | an accepted device leaves that status only by deletion, by the ephemeral sweep, by merging into a newly accepted row with its MAC, or, if its row carries a removed mark, by its own call or the sweep of removed rows |
| DeviceRuns.ReconnectMovesOnlyReconcilable | server/api/services/enrollment.go:229-256 | a reconnect changes a device's status only from pending, and only if its stored key is still valid and in webhook or allowlist mode |
| DeviceRuns.AcceptanceSpendsAnAdmittingKey | server/api/services/enrollment.go:94-211 | whenever a call gets a device accepted, the deciding key admits it, had room and lost exactly one use, and was in force unless it is the pairing key; unless one is accepted no key changes |
| DeviceRuns.RevokedKeyIsNeverUsedAgain | server/api/services/install-key.go:297-446 | over every run of calls and edits a revoked user's key keeps its use count and every other field |
| DeviceRuns.AcceptPairingAccepts | server/api/services/device-pairing.go:404-418 | a pairing that succeeds leaves the device's own row accepted |
| DeviceRuns.PairedDeviceAuthenticatesAsItself | server/api/services/device-pairing.go:380-419 | after a pairing the agent's own call, with any host name and install key, resolves to that accepted row and changes nothing |
| DeviceRuns.DeletedDeviceReturnsAsItself | server/api/services/auth.go:353-397 | a deleted device that calls again gets its old row and name back, and no second row is created |
| DeviceService.Counts.Bump | server/api/store/pg/namespace.go:307-335 | an increment moves the named counter and no other |
| DeviceService.Namespace.constructor | pkg/models/namespace.go:5-23 | an empty namespace satisfies every invariant with exact counters |
| DeviceService.Namespace.MergeDevice | server/api/services/device.go:496-537 | renames the new row, deletes the old one, and leaves no counter off |
| DeviceService.Namespace.WriteStatus | server/api/services/device.go:397-413 | the row gets the new status, and the counters follow in whichever order the two deltas are applied |
| DeviceService.Namespace.CheckAndMerge | server/api/services/device.go:338-395 | accepts or refuses exactly as the row-level check does, of which `AcceptGoesThroughIff` and `RefusalSaysWhy` give the conditions |
| DeviceService.Namespace.UpdateDeviceStatus | server/api/services/device.go:310-417 | accepts a row that is not accepted exactly if it is acceptable, ends in the row-level result with its outcome, a failure changes nothing, and no counter moves away from its rows |
| DeviceService.Namespace.DeleteDevice | server/api/services/device.go:192-230 | ends in the row-level result with no counter moved away from its rows |
| DeviceService.Namespace.RenameDevice | server/api/services/device.go:232-253 | ends in the row-level result, counters untouched |
| DeviceService.Namespace.UpdateDevice | server/api/services/device.go:419-449 | ends in the row-level result, counters untouched |
| DeviceService.Namespace.ReserveUse | server/api/store/pg/install-key.go:182-204 | increments exactly when the limit leaves room |
| DeviceService.Namespace.ReleaseUse | server/api/store/pg/install-key.go:206-226 | decrements, but not below zero |
| DeviceService.Namespace.ApplyEnrollmentDecision | server/api/services/enrollment.go:148-211 | ends in the row-level result; a pending answer means nothing changed |
| DeviceService.Namespace.EnrolNew | server/api/services/auth.go:291-340 | ends in the row-level result with exact counters |
| DeviceService.Namespace.UnremoveRow | server/api/services/auth.go:359-391 | moves a unit from the removed to the pending counter, which is right exactly if the row was removed, and states each counter's drift if not |
| DeviceService.Namespace.SettleRow | server/api/services/auth.go:384-416 | decision and write-back end in the row-level result with exact counters |
| DeviceService.Namespace.ReRegisterRow | server/api/services/auth.go:353-397 | ends in the row-level result whatever the row's status, and states exactly how far the counters drift if it was not removed |
| DeviceService.Namespace.ReconcileEnrollment | server/api/services/enrollment.go:229-256 | ends in the row-level result with exact counters |
| DeviceService.Namespace.AuthDevice | server/api/services/auth.go:213-429 | ends in the row-level result with its reply, which the install key decides both ways; the counters drift only when a row marked removed is not removed, and then by a stated amount |
| DeviceService.Namespace.AcceptPairingDevice | server/api/services/device-pairing.go:383-419 | ends in the row-level result, with the drift of AuthDevice |
| DeviceService.Namespace.CleanupRemoved | server/api/services/task.go:181-286 | drops the batch and states how far each counter drifts: by nothing while marks agree with statuses |
| DeviceService.Namespace.CleanupEphemeral | server/api/services/task.go:288-344 | dropping ephemeral rows in any statuses keeps every counter exact |
| DeviceService.Namespace.SyncDeviceCounts | server/api/store/pg/namespace.go:337-374 | the recount makes counters exact, and changes nothing if they were |
| DeviceService.Namespace.CreateInstallKey | server/api/services/install-key.go:184-275 | adds an unused key under a fresh digest |
| DeviceService.Namespace.UpdateInstallKey | server/api/services/install-key.go:297-446 | applies a patch: nothing of the pairing key, mode and pause of the legacy key, nothing of a revoked key, and no limit below the uses made |
| DeviceService.Namespace.Perform | server/api/services/device.go:192-449 | every call ends where its row-level step ends, moves drift only from the removed counter to others, and none while marks agree with statuses |
| DeviceService.Namespace.Serve | server/api/services/auth.go:323-429 | every run whose renames are safe ends where the row-level run ends, so MACs and names stay distinct and the ceiling holds; counters right at the start always add up to the rows, pending, accepted and rejected never undercount and removed never overcounts; if status updates keep off removed rows every counter stays right |
| KeyUsage.StepConserves | server/api/services/enrollment.go:158-194 | reserve, accept, give back, row writes, status updates and key edits each keep the books balanced |
| KeyUsage.UsesAreConserved | server/api/services/enrollment.go:158-194 | in every interleaving the use count is earlier uses plus completed accepts plus reservations in flight |
| KeyUsage.ReservingTakesAUse | server/api/store/pg/install-key.go:182-204 | an enrolment can begin exactly while the key has a use left, and then holds it |
| KeyUsage.AcceptCompletesIff | server/api/services/enrollment.go:171-194 | the accept completes the enrolment exactly if there is a row that is not accepted and is acceptable; otherwise nothing changes |
| KeyUsage.GivingBackFreesTheUse | server/api/store/pg/install-key.go:206-226 | giving back ends the enrolment and takes exactly one off the count, which is never zero then |
| KeyUsage.EditLandsOnTheCurrentCount | server/api/store/pg/install-key.go:160-180 | an edit writes the fields computed from what it read and leaves the current count |
| KeyUsage.StepRespectsLimitsIffFitting | server/api/services/install-key.go:396-410 | a step respects the limits if and only if, should it be the write of an edit, the uses made by then fit the new limit |
| KeyUsage.UndisturbedEditFits | server/api/services/install-key.go:396-410 | an edit fits if no use was reserved since it read the key |
| KeyUsage.AcceptsStayWithinTheLimit | server/api/store/pg/install-key.go:182-204 | in every interleaving whose edits fit, earlier uses and completed accepts stay within a positive limit |
| KeyUsage.RacingEditUndercutsAUse | server/api/services/install-key.go:396-410 | a concrete run in which a use is reserved between the check and the write of an edit |
| Pairing.MintedCodesLiveForTheTtl | server/api/services/device-pairing.go:158-196 | a prepared code can be claimed, and an agent code is live, for exactly ten minutes |
| Pairing.ClaimGoesOnIff | server/api/services/device-pairing.go:207-224 | a claim goes on exactly with a live pre-authorised code that names no device yet |
| Pairing.ReserveWinsIff | pkg/cache/cache_redis.go:66-72 | SetNX wins exactly if no reservation is live, and then holds the code for the caller |
| Pairing.ReleaseLetsARetryWin | server/api/services/device-pairing.go:268-278 | after a release that arrives any call waiting on the code wins its SetNX |
| Pairing.FreeCodeCanBeTaken | server/api/services/device-pairing.go:201-291 | a code that can be claimed and is not reserved can always be taken to an enrolment of the caller's key in its tenant, after which the entry names that key and can be claimed no more |
| Pairing.RefusedClaimCanBeRetried | server/api/services/device-pairing.go:267-278 | a refused claim whose release arrives leaves the code as free as before |
| Pairing.UserAcceptGoesOnIff | server/api/services/device-pairing.go:328-339 | a user can accept exactly live codes minted for an agent |
| Pairing.AgentCodeCanBeAccepted | server/api/services/device-pairing.go:322-378 | such an accept enrols the agent's key into the user's tenant and renews the code |
| Pairing.StepKeepsOneKey | server/api/services/device-pairing.go:201-291 | every step that does not overtake keeps one claimant key per pre-authorised code, a claimant being a key that has enrolled or holds the reservation and is being accepted |
| Pairing.ReserveKeepsInv | server/api/services/device-pairing.go:231-240 | a SetNX that does not land on an expired reservation keeps one holder per code |
| Pairing.ClaimAcceptKeepsInv | server/api/services/device-pairing.go:267-282 | an accept keeps one enrolment per prepared code, in the code's own tenant and for the reserved key |
| Pairing.ClaimReleaseKeepsInv | server/api/services/device-pairing.go:268-278 | a release, arriving or lost, frees only a code that enrolled nobody |
| Pairing.StoreKeepsInv | server/api/services/device-pairing.go:284-290 | outcome writes, arriving or lost, keep each code's origin |
| Pairing.UserAcceptKeepsInv | server/api/services/device-pairing.go:322-378 | a user's accept never enrols through a pre-authorised code |
| Pairing.TimelyRunsDoNotOvertake | server/api/services/device-pairing.go:158-291 | runs in which no SetNX lands on an expired reservation overtake nobody, and keep the pairing invariant |
| Pairing.PromptRunsAreTimely | server/api/services/device-pairing.go:226-240 | runs in which every SetNX comes while the code it read is live are such runs |
| Pairing.OvertakingIsLate | server/api/services/device-pairing.go:226-240 | a SetNX that overtakes finds an expired reservation, and so comes after the code it read has expired |
| Pairing.OvertakesIffExpired | server/api/services/device-pairing.go:226-240 | while another key is a claimant, SetNX overtakes it if and only if the reservation has expired |
| Pairing.PreparedCodeEnrolsOneKey | server/api/services/device-pairing.go:201-291 | in every interleaving without overtaking a pre-authorised code enrols at most one public key, and only into its own tenant |
| Pairing.ReserveBreaksSingleUseIffItOvertakes | server/api/services/device-pairing.go:201-291 | after a SetNX two keys can enrol through its code, with no later overtaking, if and only if that SetNX overtook a key that had enrolled or was being accepted |
| Pairing.StalledCallEnrolsASecondKey | server/api/services/device-pairing.go:211-233 | a concrete run in which a call sleeps past the reservation and a second key is enrolled |
| Lockout.DurationsAreWholeMinutes | pkg/cache/cache_redis.go:117-131 | the code's power, minimum, maximum and truncations equal the closed form in whole minutes |
| Lockout.AccountLock.HasAccountLockout | pkg/cache/cache_redis.go:83-102 | reads the live entries, and nothing when the lockout is off |
| Lockout.AccountLock.StoreLoginAttempt | pkg/cache/cache_redis.go:104-139 | the stored counter, lock and both lifetimes equal the closed form |
| Lockout.AccountLock.ResetLoginAttempts | pkg/cache/cache_redis.go:141-151 | forgets counter and lock |
| Lockout.AccountLock.Login | server/api/services/auth.go:518-550 | a login is blocked, fails or succeeds, and stores accordingly |
| Lockout.AttemptKeepsSane | pkg/cache/cache_redis.go:114-138 | each login keeps: a live lock has a live counter of at least three that expires no earlier |
| Lockout.RunKeepsSane | pkg/cache/cache_redis.go:114-138 | every run keeps it |
| Lockout.LockBlocksEveryAttempt | server/api/services/auth.go:518-530 | an attempt is blocked exactly while a lock is live, whether or not the password is right, and then changes nothing |
| Lockout.ComparisonsNeedAnOpenLock | server/api/services/auth.go:518-550 | in every run a password is compared exactly at instants with no live lock, and succeeds there exactly if it is right |
| Lockout.FirstFailureAfterSuccess | pkg/cache/cache_redis.go:141-151 | the first failure after a success counts as one and locks nothing |
| Lockout.NoCapNoLockout | pkg/cache/cache_redis.go:83-86 | without a cap nobody is locked out and nothing is stored |
| Lockout.FailuresTakeTime | pkg/cache/cache_redis.go:104-139 | how long further failures must take after a failure that left the counter at any value |
| Lockout.RateBound | pkg/cache/cache_redis.go:104-139 | n failed comparisons with no success among them span at least two minutes for every three after the first three, hence at least (n-1)/3 minutes, for every strategy and starting history |
| Lockout.RateBoundIsSharp | pkg/cache/cache_redis.go:104-139 | for every cap and every n the first of those bounds is attained |
| Lockout.Escalation | pkg/cache/cache_redis.go:114-138 | while failures keep beating the counter's expiry the k-th locks for exactly min(4^(k-3), cap) minutes from the third on, and not before; the lock's value is the second it ends in |
| AccessPolicy.PrefixCoversBlock | server/api/services/access-policy.go:209-220 | a prefix contains exactly one contiguous power-of-two block (section 3.1 of RFC 4632), and a full-length one exactly its address |
| AccessPolicy.SourceIpIsUnionOfBlocks | server/api/services/access-policy.go:199-223 | for readable prefixes matching is lying in one of them, whatever their order |
| AccessPolicy.UnmapTakesOutIpv4 | server/api/services/access-policy.go:209-209 | an IPv4 address written inside IPv6 is that address, and any other stays itself |
| AccessPolicy.BlocksAreSearchedInOrder | server/api/services/access-policy.go:211-220 | the source matches exactly if the address lies in a block before any unreadable entry, and fails exactly if an unreadable entry comes before any such block |
| AccessPolicy.PolicyAppliesIff | server/api/services/access-policy.go:154-223 | a policy applies exactly if its subject names the member, its filter selects the device, it lists the login or the wildcard, and its sources admit the address; and is broken exactly if a part that is looked at cannot be evaluated |
| AccessPolicy.FindMember | pkg/models/namespace.go:63-71 | finds the first member with the identifier exactly if there is one |
| AccessPolicy.StricterReauthPeriod | server/api/services/access-policy.go:293-303 | returns one of its arguments, at least as strict as both |
| AccessPolicy.FindDeny | server/api/services/access-policy.go:77-93 | reports a denial exactly if some deny applies or cannot be evaluated, field by field |
| AccessPolicy.CollectAllows | server/api/services/access-policy.go:99-132 | finds whether some allow matches, whether one demands re-authentication, and the strictest window |
| AccessPolicy.Authorize | server/api/services/access-policy.go:64-146 | the decision is the one fixed by the fields of the policies as a set: membership, no deny that applies or fails, some allow that applies, strictest re-authentication, none for service accounts |
| AccessPolicy.DecisionIsDetermined | server/api/services/access-policy.go:64-146 | that specification fixes every field but the reason |
| AccessPolicy.OrderIsIrrelevant | server/api/services/access-policy.go:95-98 | permuting the list changes no field but the reason |
| AccessPolicy.AddingDenyNeverGrants | server/api/services/access-policy.go:74-93 | one more deny allows exactly what was allowed and is not blocked by it, on the same terms |
| AccessPolicy.AddingAllowNeverRevokesOrLoosens | server/api/services/access-policy.go:95-132 | one more allow revokes nothing and loosens no re-authentication |
| AccessPolicy.ServiceAccountsNeedAnExplicitGrant | server/api/services/access-policy.go:138-144 | a service account enters only through a policy naming it or its role, and never has to re-authenticate |
| AccessPolicy.PolicyStore.SeedAccessPolicy | server/api/services/access-policy.go:460-480 | seeds an empty store with the owner policy and leaves any other alone |
| AccessPolicy.SeedAdmitsExactlyTheOwner | pkg/models/access-policy.go:79-89 | after seeding exactly the owner is allowed, on every device, login and source, without re-authentication |
| AccessPolicy.NormalizeSourceIps | server/api/services/access-policy.go:175-194 | trims, drops blanks, and turns bare addresses into host routes, in order |
| AccessPolicy.NormalizingKeepsEntries | server/api/services/access-policy.go:175-194 | the result holds the normal forms of the entries that are not blank and nothing else |
| AccessPolicy.NormalizingKeepsOrder | server/api/services/access-policy.go:175-194 | without blanks each normal form stands where its entry stood |
| AccessPolicy.NormalEntryIff | server/api/services/access-policy.go:183-188 | exactly bare addresses are rewritten, into the printed address and its full length |
| AccessPolicy.NormalizingIsIdempotent | server/api/services/access-policy.go:175-194 | normalising twice is normalising once |
| AccessPolicy.BareAddressBecomesHostRoute | server/api/services/access-policy.go:171-188 | a normalised bare address lets in that host and no other |
| Heartbeat.SortedUids | server/api/services/heartbeat.go:202-209 | the devices of a set, once each, strictly sorted |
| Heartbeat.LessIsLexicographic | server/api/services/heartbeat.go:209-209 | the order is that of strings: a prefix first, else the smaller at the first difference |
| Heartbeat.EarliestIsMinimum | server/api/services/heartbeat.go:175-178 | the batch timestamp is one of its beats' and no later than any |
| Heartbeat.Batch.Add | server/api/services/heartbeat.go:185-191 | the batch then stands for one more beat: its devices and its earliest instant |
| Heartbeat.Batch.Take | server/api/services/heartbeat.go:197-217 | hands over the sorted devices and earliest instant of exactly the beats added, and empties the batch |
| Heartbeat.DeviceHeartbeater.Submit | server/api/services/heartbeat.go:75-88 | takes the beat if the queue has room, else counts it dropped; ignores an empty device |
| Heartbeat.DeviceHeartbeater.Flush | server/api/services/heartbeat.go:147-170 | writes the batch, if any, as one more segment |
| Heartbeat.DeviceHeartbeater.Receive | server/api/services/heartbeat.go:118-122 | takes the oldest queued beat, and writes exactly when the batch has reached 1000 devices |
| Heartbeat.DeviceHeartbeater.Tick | server/api/services/heartbeat.go:123-124 | writes whatever is batched |
| Heartbeat.DeviceHeartbeater.Shutdown | server/api/services/heartbeat.go:125-145 | writes everything batched and queued as one more segment, and afterwards everything ever enqueued has been written |
| Heartbeat.DeviceHeartbeater.Live | server/api/services/heartbeat.go:108-145 | over a whole life the written segments are those of the value-level loop closed by one last write; in order they are exactly the beats that found room; each write summarises its segment; every write before shutdown holds at most 1000 devices |
| RevDial.StepKeepsInv | pkg/revdial/revdial.go:137-201 | every step keeps channels, waiting dials and offered connections matched by identifier |
| RevDial.DialGetsItsOwnConnection | pkg/revdial/revdial.go:137-201 | in every interleaving a Dial returns only a connection tagged with its identifier that came to its dialer, and no connection goes to two Dials |
| RevDial.ReturnedStays | pkg/revdial/revdial.go:165-169 | what a Dial has returned does not change later in the run |
| RevDial.AnsweredDialReturns | pkg/revdial/revdial.go:137-201 | an announced Dial whose agent calls back with its identifier returns that connection |
| RevDial.LateCallbackIsDropped | pkg/revdial/revdial.go:146-146 | a connection that comes after its Dial has given up or cleaned up is dropped |
| RevDial.CallbackFindsItsChannelIff | pkg/revdial/revdial.go:185-193 | a callback is offered on the channel stored under its dialer and tag exactly if there is one |
| RevDial.OnlyRegisteredDialersAreReached | pkg/revdial/revdial.go:505-528 | connections come in exactly for registered dialers |
| LoginCode.LoginCodes.CreateDeviceLoginCode | server/api/services/device-login.go:39-63 | drops the device's remembered code and records the new one in both entries |
| LoginCode.StepKeepsRemembered | server/api/services/device-login.go:45-60 | every live code is the one its device remembers, for at least as long |
| LoginCode.AtMostOneLiveCode | server/api/services/device-login.go:25-30 | at any instant of any run at most one code leads to a device, even after collisions |
| LoginCode.IssuingDropsOnlyTheRememberedCode | server/api/services/device-login.go:45-60 | the new code leads to the device in its tenant, and another live code is lost exactly if it is the one the device remembers |
| LoginCode.CollisionCostsAnotherDeviceItsCode | server/api/services/device-login.go:45-52 | a concrete case in which, after a collision, that code is another device's |
| LoginCode.IssuedCodeResolves | server/api/services/device-login.go:54-60 | a new code leads to its device until exactly its lifetime has passed |
| EnvOverride.IndexKeys | agent/pkg/selfupdater/updater_docker.go:252-256 | maps each key to its last position |
| EnvOverride.ApplyOverrides | agent/pkg/selfupdater/updater_docker.go:258-275 | overrides land at their key's place, new keys are appended, removals are marked |
| EnvOverride.DropEmpty | agent/pkg/selfupdater/updater_docker.go:277-283 | the in-place deletion loop ends and leaves exactly the non-empty entries in order |
| EnvOverride.ReplaceOrAppendEnvValues | agent/pkg/selfupdater/updater_docker.go:251-286 | the result is each default under the last override of its key, in order, then the new settings in order, for any overrides of a KEY=VALUE list |
| EnvOverride.OverrideIsMapUpdate | agent/pkg/selfupdater/updater_docker.go:251-286 | with distinct keys an entry is in the result exactly if it was set, or is a default nobody touched |
| EnvOverride.ResultHasDistinctKeys | agent/pkg/selfupdater/updater_docker.go:251-286 | with distinct keys the result has distinct keys |
| WsAdapter.Adapter.Read | pkg/wsconnadapter/wsconnadapter.go:141-176 | without an error the bytes returned and the bytes still unread are the stream unread before, also when data comes with the end of a message; how many bytes come, when a message is left behind, and exactly when each error is returned |
| WsAdapter.Adapter.ReadMany | pkg/wsconnadapter/wsconnadapter.go:141-176 | any sequence of reads returns a prefix of the concatenated binary messages (section 5.6 of RFC 6455), loses or repeats nothing until the first error, and has returned all of it when the connection is over |

## Left out

- Concurrent `AuthDevice` calls on one device: the call reads and later writes the whole row outside a transaction, so two calls can overwrite each other; only its reserve, accept and release steps are interleaved (`KeyUsage`).
- The 30-second `auth_device` response cache: every call is taken to miss it, so the row work always happens.
- The licence limit as a bound on devices: the source documents that it may be overshot; its answer is arbitrary here.
- The deferred-decision callback and its single-use token: on rows it is a status update, on keys the same three steps as an enrolment.
- DeviceRuns.RevokedKeyIsNeverUsedAgain: covers runs of whole calls; two edits of one key made side by side each write every field they read, and the later write wins.
- Changes of the namespace's device ceiling during a run.
- Creation of keys during the interleavings of `KeyUsage`; a key created there has no uses to conserve yet.
- Names, tags, webhook settings and the expiry range in key edits: whether those checks pass is a parameter.
- Device attributes that no modelled rule reads: position, remote address, tags, ephemeral timeouts, sessions, enrolment history events.
- Paging in the clean-up of removed devices: any batch the query may return is allowed.
- Lookups of namespaces, and of the device before `Authorize`, with their not-found errors; permission checks on members who prepare or accept pairings.
- Reuse of an agent's live pairing code for the same key, the resume of an already accepted one, and the polling of outcomes.
- Store errors after a heartbeat flush: a write is taken to be handed to the store, which the source logs and does not retry.
- Regular expressions, reading and printing of addresses: parameters. Normalising assumes that a printed address is not empty and starts with no blank; the host-route lemma assumes that the printed route reads back as the route.
- Unicode case folding and the white space beyond Latin-1: device names, MACs and source entries are taken to be ASCII.
- Concurrent logins for one source and user, and cache errors during login: each login is one step.
- 64-bit overflow of lockout durations, which needs a cap beyond 150 million minutes.
- DeviceService.Namespace.ReRegisterRow: writes the pending row before every decision, where the source skips that write when the decision is to leave the device pending; the row written at the end is the same.
- Liveness, shutdown order and error attribution in reverse dialling, and what the agent does with a connection once it is handed over.
- Concurrent issuing of login codes to one device: each call is one step.
- Write deadlines, pings and the write side of the WebSocket adapter.
- Routes, gateway, CLI, agent host integration and the user interface.

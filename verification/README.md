# Verified model of the MAR runtime

MAR runs coding tasks under supervision and publishes verified results to a Git branch. This
project models the protocols and algorithms of that runtime that are hard to get right and proves
what they keep. `dafny verify dfyconfig.toml` checks everything.

| files | part of MAR | form |
|---|---|---|
| Git, Integration | authoritative integration: attempts, compare-and-swap, private refs, checkout | step relation over runs |
| IntegrationManager | the manager's methods, against a host scripted with faults, crashes and owner edits | class |
| Containment, Supervisor, MarkerFile | contained launch, termination proofs, recovery, replacement gates | step machine, classes |
| Governor, MapSums | admission with uint64 arithmetic, leases | classes, lemmas |
| Capacity | launch, park, resume and removal in the daemon | step machine |
| AdmissionGate | idle exclusivity and the disk-usage cache | step machine, class |
| Scheduler | task selection and bounded waiting | methods, lemmas |
| PageRank, RealSums | personalized PageRank over the reals | methods, lemmas |
| KeyedLocks, KeyedMutexRegistry, StringOrder | keyed mutexes in a global order | step machine, class |
| AgentLoop, Observations, Text | the bounded agent loop and what it shows the model | class, methods |
| Budget, WebWait | convergence budget over attempts, time spent waiting | functions, lemmas, method |
| Projection, Decimal | decision projection and context pack | methods |
| Delta | incremental cognition requests | methods, lemmas |
| SessionTracker | bounded session telemetry | class, lemmas |
| Options, FiniteSets | shared helpers | datatype, lemmas |

## Reading the integration part

`Integration` says which atomic effects an attempt may have and proves safety of every sequence of
such effects. A crash is a run that goes on with another drive, so it needs no step of its own. In
`IntegrationManager` each Git or store call consults arbitrary scripts: what the owner does to the
checkout before it, and whether it succeeds, fails (having taken effect or not) or never returns.
`Good()` says that everything the methods ever do is such a run. `n` in a contract is the call
from which good behaviour is assumed; nothing is assumed where it is not mentioned.

## Assumptions

- Store: a status change is atomic and durable, attempt identity is fixed, and, where `honest` is
  set, an error means that nothing was changed.
- Git: an object id stands for its content; `update-ref` compares and swaps atomically but may
  report an error after it took effect; the index is replaced by a rename.
- Windows: closing the last handle of a job kills every process in it, a job's name is found
  exactly while a handle is open, processes cannot leave the job, and an attempt is launched once.
- Sensors, clocks, encoders, model responses, tools and the render functions are parameters about
  which nothing is assumed beyond what a contract says.

## Where the code differs from what is said about it

- A failing probe of the checked-out branch is treated like a checkout of another branch: the
  synchronization is skipped and the attempt is finalized with the old files on disk
  (manager_windows.go:463; `IntegrationManager.FailedProbeFinishesWithOldFiles`). A failing
  update of the files can leave some of them switched when the synchronization is given up.
- All-or-nothing holds for a single live attempt and a single writer of the branch, whatever a
  store error means; for each of the two there is a run that breaks it without, and
  `BlockedAfterSwapIff` says exactly when other attempts do. That a dispatched candidate stays
  pinned needs besides a store whose errors mean "not applied".
- A launch that fails before its marker is written can never be confirmed afterwards, so its task
  stays blocked for good. That is the intended direction of failure, and `LostLaunchSettlesIffMarked`
  says exactly when it happens.
- A sensor that reports 2^64-1 available bytes switches the reserve it stands for off.
- The decision and tool-call budgets count durable web turns only. In provider mode nothing is
  recorded, so three attempts can take 36 turns and 192 tool calls where 24 and 64 are meant, and
  every approved attempt adds to that; `Budget.ProviderCapsExactly` says which caps do hold.
- A call without a name is answered with an error reply, and the next request is then rejected as
  invalid, which ends the run with an error (model.go:112-116; `AgentLoop.Loop.Send`).
- Trimming of a projection measures with an empty size field, so it can fail a few bytes under its
  bound although more could be dropped. When the byte budget for recent events runs out, the newest
  of the window are the ones that are lost.
- A context pack that is empty and too large from the start keeps the byte count from before it was
  marked as truncated.
- Section values are compared as float64 JSON, so integers beyond 2^53 can change unnoticed; and a
  field that becomes empty reads as unchanged.
- Waits are read in the text order of their timestamps, which is not the order in time when the
  digits of one fraction of a second are a prefix of the other's; a wait that comes too late is
  then lost (`WebWait.TextOrderIsTimeOrderIff`, `WebWait.LateRowIsLost`).

## Model

| member | source | states |
|---|---|---|
| Git.MatchesBaseExactly | internal/integration/manager_windows.go:644-667 | The three inspections (staged, unstaged, untracked) find nothing if and only if index and worktree are both exactly the base tree. |
| Git.SynchronizationKeepsOwnerWork | internal/integration/manager_windows.go:480-482 | The two-tree update, complete or torn half way, changes no path that is staged, edited, created or deleted by the owner, and moves no branch. |
| Git.ReadTreeFromBase | internal/integration/manager_windows.go:480-490 | From a checkout equal to the base the update cannot refuse and lands exactly on the candidate. |
| Git.MergeableIff | internal/integration/manager_windows.go:480-482 | The two-tree update gets through if and only if each path on which the trees differ is already staged as in the candidate or has been touched by nobody; then the index is the candidate on these paths and as it was on all others, and just the untouched files are switched. |
| Git.TornReadTreeIsBetween | internal/integration/manager_windows.go:480-482 | An update that dies half way leaves the index as it was, and each file as it was or as it will be. |
| Git.DescentIsTransitive | internal/integration/manager_windows.go:134-140 | Ancestry is a strict partial order, which is what a fast-forward check relies on. |
| Integration.AllOrNothing | internal/integration/manager_windows.go:305-525 | Over every run of drives, crashes, ambiguous ref updates and owner edits of the only live attempt: BLOCKED means the branch is still at the expected head, COMPLETE that it is at the candidate. |
| Integration.FastForwardOnly | internal/integration/manager_windows.go:422-449 | Every change of a branch, with any number of attempts, is a swap by a dispatched attempt from its expected head to a strict descendant. |
| Integration.NoTwoSwapsFromOneBase | internal/integration/manager_windows.go:422-449 | Two attempts with the same expected head never both swap the branch, even if both were dispatched before a crash. |
| Integration.BranchesNeverGoBack | internal/integration/manager_windows.go:422-449 | What a branch has reached stays in its history for good. |
| Integration.SoundIsKept | internal/integration/manager_windows.go:360-398 | Every effect keeps: a pin holds its own candidate; COMPLETE means reached and unpinned; with an honest store a dispatched candidate is pinned or in the branch's history. |
| Integration.CandidateStaysPinned | internal/integration/manager_windows.go:360-398 | Every swap runs while the private ref holds the candidate; with an honest store a dispatched candidate is pinned or in the branch history; COMPLETE means the private ref is gone. |
| Integration.SoundThroughout | internal/integration/manager_windows.go:305-506 | The same at every point of every run. |
| Integration.IdentityIsFixed | internal/store/integration.go:16-110 | Of an attempt only the status ever changes. |
| Integration.DecidedIsKept | internal/integration/manager_windows.go:437-452 | With one live attempt, every effect keeps the branch on the side of the swap that the status promises. |
| Integration.BlockedAfterSwapIsContained | internal/integration/manager_windows.go:451-453 | With several live attempts an attempt can be BLOCKED after its swap only when the branch has already moved on to a strict descendant of its candidate. |
| Integration.BlockedAfterSwapIff | internal/integration/manager_windows.go:451-453 | With any number of live attempts: an attempt that has swapped and is not settled can be BLOCKED if and only if its branch has been swapped again since. |
| Integration.SecondLiveAttemptCanBlockAnAppliedOne | internal/integration/manager_windows.go:451-453 | Why one live attempt is assumed: from every project without attempts, a run (prepare, pin, dispatch and swap two attempts, the first cut off before its finalize) that ends with the applied first attempt BLOCKED. |
| Integration.OutsideWriterCanBlockAnAppliedOne | internal/integration/manager_windows.go:451-453 | Why MAR is assumed to be the only writer of the branch. |
| Integration.AmbiguousStoreCanUnpinADispatchedCandidate | internal/integration/manager_windows.go:374-382 | Why the pin clause assumes a store whose errors mean `not applied`: a dispatch that committed but reported an error loses its pin. |
| IntegrationManager.Host.EnsureCandidateAnchor | internal/integration/manager_windows.go:574-609 | Success means that the private ref holds the candidate, whatever the ref update reported: an update that took effect but reported an error succeeds, one that did not take effect does not; nothing else moves. |
| IntegrationManager.Host.DeleteCandidateAnchor | internal/integration/manager_windows.go:611-634 | Success means that the private ref is gone, removed without an error and seen to be gone; nothing else moves. |
| IntegrationManager.Host.BlockAttempt | internal/integration/manager_windows.go:508-525 | Reported as blocked exactly when the store recorded it, whatever becomes of the pin, which is removed if nothing fails; branches and checkout stay. |
| IntegrationManager.Host.ProjectCheckoutMatchesExpectedBase | internal/integration/manager_windows.go:644-667 | Without interference the answer is whether index and worktree equal the base; a reading call changes nothing. |
| IntegrationManager.Host.ReadyToDispatch | internal/integration/manager_windows.go:335-368 | Dispatch is allowed only on fresh evidence for this very result and candidate; undisturbed if and only if the expected branch is checked out at the expected head, clean unless nothing is to be moved, and the evidence is fresh. |
| IntegrationManager.Host.MarkDispatched | internal/integration/manager_windows.go:374-383 | Either the attempt is DISPATCHED with its pin untouched, or the failure is reported; when just the store fails the pin is removed again. |
| IntegrationManager.Host.Dispatch | internal/integration/manager_windows.go:335-384 | Going on means DISPATCHED, at the expected head, and pinned; stopping leaves the branch alone. |
| IntegrationManager.Host.AdvanceRef | internal/integration/manager_windows.go:422-450 | The branch moves only if a gate call succeeded with exactly this result, verified, with this final revision; without fresh evidence and faults the attempt is BLOCKED and the branch stays. Going on means that the branch is at the candidate; a failed update is reconciled by what the branch shows: one that took effect goes on, one that did not is reported and leaves the attempt as it was; without a fresh answer of the gate, an error included, the branch stays and the attempt is blocked. |
| IntegrationManager.Host.MoveCheckout | internal/integration/manager_windows.go:472-490 | With the owner idle, files change only from a checkout equal to the base and only along base and candidate; success means the candidate is checked out; a required sync leaves every file alone unless the update call itself failed, which can leave some files switched. |
| IntegrationManager.Host.SyncCheckout | internal/integration/manager_windows.go:463-491 | The whole synchronization: success with a working probe on the branch means the candidate is checked out; another branch or a failing probe skips it and changes nothing; a required sync changes no file unless a call failed. |
| IntegrationManager.Host.SyncAndFinalize | internal/integration/manager_windows.go:463-506 | What a drive leaves on disk, by the fate of its probe: done with a working probe means the candidate is checked out, done with a failing one that the old files stay; if just the probe fails it is done. |
| IntegrationManager.FailedProbeFinishesWithOldFiles | internal/integration/manager_windows.go:463-506 | A drive of an applied attempt on its branch with the old files: the probe fails, the attempt is COMPLETE, and the old files stay. |
| IntegrationManager.Host.Finalize | internal/integration/manager_windows.go:492-505 | COMPLETE is recorded only after the private ref is gone. |
| IntegrationManager.Host.FinishNoOp | internal/integration/manager_windows.go:399-420 | An attempt without a change completes only on fresh evidence, and then exactly at its expected head; without it it is BLOCKED. |
| IntegrationManager.Host.Apply | internal/integration/manager_windows.go:421-506 | The outcome tells the truth about status, branch and pin; undisturbed it is the verdict that the state deserves; owner files are kept, and what is on disk follows from the fate of the probe. |
| IntegrationManager.Host.DriveDispatched | internal/integration/manager_windows.go:389-506 | The same from DISPATCHED on, for both kinds of attempt. |
| IntegrationManager.Host.DrivePrepared | internal/integration/manager_windows.go:335-506 | Undisturbed, a prepared attempt completes if and only if it may be dispatched, and is blocked otherwise. |
| IntegrationManager.Host.DriveAttempt | internal/integration/manager_windows.go:305-506 | Under every script of faults, crashes and edits the drive adds only its own protocol steps and calls nothing once the daemon has died; its outcome is true, and without faults a finished or blocked attempt leaves no pin behind; the branch moves, and a prepared attempt is dispatched, only on evidence that was fresh during the drive, and without it an attempt that has not swapped is BLOCKED; SYNC_REQUIRED leaves the attempt DISPATCHED and, unless a later call failed, every file unchanged; done on the branch means the candidate is checked out exactly unless the probe failed over other files; without faults it gets through, undisturbed to the end the attempt deserves. |
| IntegrationManager.Host.DriveLive | internal/integration/manager_windows.go:335-506 | The same for a live attempt once it is loaded. |
| IntegrationManager.Host.CheckCandidate | internal/integration/manager_windows.go:126-163 | A candidate passes only at the observed head and as its descendant; undisturbed the answer is drift, blocked or passed exactly by head, cleanness and ancestry. |
| IntegrationManager.Host.PrepareAndDrive | internal/integration/manager_windows.go:164-186 | A prepared attempt is bound to the head that was seen; undisturbed it completes. |
| IntegrationManager.Host.IntegrateFirst | internal/integration/manager_windows.go:111-186 | At most one attempt is added; drift or unverified evidence adds none and moves nothing; done means the candidate is in the branch; a branch moves only on fresh evidence for the new attempt; without faults and edits the outcome is the one that the gate's answer, head, cleanness and ancestry call for. |
| IntegrationManager.Host.Integrate | internal/integration/manager_windows.go:81-186 | An existing live attempt is driven instead of preparing another, a settled one reported; a branch moves only on fresh evidence; without faults it gets through, and a first integration ends as evidence, head, cleanness and ancestry call for. |
| IntegrationManager.Host.RetryBlockedVerifiedIntegration | internal/integration/manager_windows.go:188-275 | A blocked verified result is tried again only with the same fresh evidence and workspace; with stale evidence it is refused; refusals move nothing; undisturbed and still mergeable it completes with exactly that candidate. |
| IntegrationManager.Host.RecoverPending | internal/integration/manager_windows.go:277-292 | If recovery gets through, every pending attempt is settled or its branch has reached the candidate; without faults it does get through. |
| IntegrationManager.Host.Redrive | internal/integration/manager_windows.go:305-506 | All or nothing for the code itself: any number of scripted drives of the only live attempt, by as many daemons. |
| Containment.SaneIsKept | internal/processctl/recovery_windows.go:130-168 | Every launcher, tree, recovery, process or crash step keeps: no marker before the process is in the job, no living process without a job handle, no proof while anything is left. |
| Containment.ProofIsFinal | internal/processctl/supervisor_windows.go:83-97 | A valid termination proof, or a confirmed attempt, means that no process of the attempt is left then or at any later point of any run. |
| Containment.LiveIsContained | internal/processctl/recovery_windows.go:152-167 | A worker runs only inside a job that can be killed and only after its marker is durable. |
| Containment.QuietJobIsNoProof | internal/processctl/recovery_windows.go:120-129 | Why the marker is needed: a job whose counter reads zero can still be on its way to a live worker. |
| Containment.LostLaunchSettlesIffMarked | internal/processctl/recovery_windows.go:170-180 | Once the launching thread is gone the attempt can ever be confirmed if and only if it is confirmed, proved or durably marked. |
| Containment.Settles | internal/processctl/recovery_windows.go:187-195 | A marked attempt can always be confirmed: a restart finds the job gone, and that is a proof. |
| Containment.UnprovableForGood | internal/processctl/recovery_windows.go:180-186 | Without marker, proof and launcher the attempt stays unproved in every continuation. |
| Containment.FencedIsKept | internal/store/sqlite.go:743-808 | Begin, confirm, recovery and crash keep all but the latest attempt of a task terminated. |
| Containment.SingleLiveWriter | internal/orchestrator/task_runner_windows.go:159-172 | Over every run with crashes, retries and replacements, an earlier attempt of a task has no process left, running or suspended, while a later one exists. |
| Containment.ReplacementIsSafe | internal/orchestrator/daemon_windows.go:333-364 | When a replacement may begin, no earlier attempt of its task will ever have a live process again. |
| Containment.ReplacementGetsThroughIff | internal/store/sqlite.go:743-808 | A task can be made ready, and an attempt begun, if and only if every earlier attempt is confirmed to be gone; that adds one attempt and uses the readiness up. |
| Supervisor.Host.Perform | internal/processctl/supervisor_windows.go:112-180 | Whatever the methods do is a run of the containment machine. |
| Supervisor.Host.WriteAssignedMarker | internal/processctl/recovery_windows.go:48-103 | Success leaves the durable marker behind; only then can the launch go on to resume. The file protocol itself is MarkerFile. |
| MarkerFile.Directory.WriteAssignedMarker | internal/processctl/recovery_windows.go:48-103 | Call by call: success means the marker of this attempt is on disk; whatever fails, the marker's name shows what it showed before or the whole marker; a file that is there is never replaced; it succeeds if and only if its seven calls do and no other file is there; under the temporary name something is left only if its removal fails. |
| MarkerFile.Directory.PrepareTemp | internal/processctl/recovery_windows.go:66-85 | It succeeds exactly if the file is created, written, synced and closed, and then holds the whole marker on disk; otherwise it is removed. |
| MarkerFile.Directory.ReadAssignedMarker | internal/processctl/recovery_windows.go:105-121 | Only a whole marker of this very attempt and its job name is recognized. |
| MarkerFile.CutOffAnywhere | internal/processctl/recovery_windows.go:48-121 | A first write that is cut off by a crash at any call leaves nothing or a marker that is recognized. |
| Supervisor.Host.StartContainedJob | internal/processctl/recovery_windows.go:130-168 | The launch succeeds if and only if no call reports an error and the process lives until it is assigned; a started worker is contained and marked; a failed launch leaves nothing alive without a handle to kill it through. |
| Supervisor.Host.Cleanup | internal/processctl/recovery_windows.go:139-146 | Whatever fails on the way, the handle is given up last and nothing uncontained stays alive; without errors nothing of the attempt is left and the handle is closed. |
| Supervisor.Host.Start | internal/processctl/supervisor_windows.go:112-180 | A tree if and only if no call reports an error, the containment check among them, and the process lives until it is assigned; a tree exists only for a contained, marked launch. |
| Supervisor.Host.WaitForNoActive | internal/processctl/supervisor_windows.go:285-302 | The polling loop ends; it reports quiet only when nothing of the attempt is left, and always does when nothing is left and no query fails; otherwise a query failed or processes are active. |
| Supervisor.Host.RecoverTermination | internal/processctl/recovery_windows.go:173-215 | A proof only for a marked attempt of which nothing is left; a marked attempt gets one whenever no call fails, none when one reports an error, and a missing proof is then a failure; without a marker nothing is done; every handle opened is closed. |
| Supervisor.Host.TerminateOpened | internal/processctl/recovery_windows.go:197-214 | The opened job is terminated if active, awaited, and its handle closed on every path; a proof whenever no call fails, and none when one reports an error. |
| Supervisor.Tree.TerminateAndConfirm | internal/processctl/supervisor_windows.go:217-254 | For an open tree a proof is given if and only if no call on the way reports an error, and then nothing of the attempt is left; a closed tree never changes its answer. |
| Supervisor.Tree.WaitAndConfirm | internal/processctl/supervisor_windows.go:258-283 | The same for natural completion, where without an error the only other outcome is that processes are still active at the last poll. |
| Supervisor.Tree.WaitAndClose | internal/processctl/supervisor_windows.go:230-254 | What both share: a failure leaves the tree open and without a proof; if nothing is left and no call fails, it is confirmed. |
| Supervisor.Tree.AwaitParentAndClose | internal/processctl/supervisor_windows.go:237-254 | Once the job is empty, confirmed if and only if waiting for the parent and closing the handle succeed. |
| Supervisor.Tree.CloseUnverified | internal/processctl/supervisor_windows.go:307-316 | Closing never makes a proof and never withdraws one. |
| Governor.DecidesLikeUnboundedArithmetic | internal/resourcegov/governor.go:241-300 | Below saturation the saturating and wrapping uint64 sums admit exactly the claims that unbounded arithmetic admits. |
| Governor.AdmissionKeepsSafe | internal/resourcegov/governor.go:166-177 | An admission keeps both caps and keeps the plain sums of reservations within uint64. |
| Governor.AdmissionKeepsCaps | internal/resourcegov/governor.go:277-296 | The heavy caps hold whatever the sensor reports. |
| Governor.ReserveIsEnforcedExactlyBelowSaturation | internal/resourcegov/governor.go:262-275 | The memory and disk reserves are enforced exactly unless the sensor reports 2^64-1 bytes, and the disk budget exactly unless it is unset or 2^64-1: then nothing is denied. |
| Governor.ReleaseKeepsCaps | internal/resourcegov/governor.go:347-351 | Releasing keeps the heavy caps. |
| Governor.ReleaseKeepsSafe | internal/resourcegov/governor.go:347-351 | Releasing keeps the caps and the sums. |
| Governor.Governor.AddUp | internal/resourcegov/governor.go:248-257 | The sums do not depend on the order in which the map is visited, and wrap as uint64 does. |
| Governor.ReasonsAreTrue | internal/resourcegov/governor.go:241-300 | Each denial reason is given exactly when what it says is so. |
| Governor.Governor.EvaluateLocked | internal/resourcegov/governor.go:241-300 | Allowed means no reason to deny; each reason is given exactly when it holds; in safe states it is exactly the unbounded admission rule. |
| Governor.Governor.TryAcquire | internal/resourcegov/governor.go:157-177 | The heavy caps hold in every reachable state whatever the sensor reports; denial changes nothing; admission adds exactly the claim with a new lease; below saturation the sums stay exact and admission is the unbounded rule. |
| Governor.Lease.Release | internal/resourcegov/governor.go:353-364 | The first release frees exactly its claim, a second one nothing, not even a later claim with the same id; the heavy caps are kept. |
| MapSums.SumWithout | internal/resourcegov/governor.go:248-257 | A sum over a map splits at any key, so the visiting order cannot matter. |
| Capacity.CapacityIsBounded | internal/orchestrator/daemon_windows.go:597-702 | Under every interleaving, executions that hold or reacquire capacity stay within the limit and resident ones within twice the limit. |
| Capacity.EveryClaimHasOneOwner | internal/orchestrator/daemon_windows.go:436-445 | Every execution claim in the governor has one unreleased lease, held at exactly one place. |
| Capacity.NoClaimOutlivesItsExecutions | internal/orchestrator/daemon_windows.go:720-734 | When no execution is registered and no thread is between two steps, no claim is left. |
| Capacity.ReleaseFreesItsOwnClaim | internal/orchestrator/daemon_windows.go:617-642 | A pending release frees its own claim and nobody else's; no lease is released twice. |
| Capacity.OwnedIsKept | internal/orchestrator/daemon_windows.go:617-702 | Launch, park, resume and removal move a lease but never duplicate it. |
| Capacity.NoOrphanIsKept | internal/orchestrator/daemon_windows.go:661-676 | No step loses a lease, even when the execution ends while capacity is being reacquired. |
| Capacity.OneResumerIsKept | internal/orchestrator/daemon_windows.go:658-690 | An execution is reacquired by one thread at a time, and holds no lease meanwhile. |
| Capacity.MarksStayLive | internal/orchestrator/daemon_windows.go:665-681 | No step leaves an entry marked resuming without a thread that is reacquiring for it. |
| Capacity.ResumingIffUnderWay | internal/orchestrator/daemon_windows.go:665-681 | At every moment an entry is marked resuming exactly while a thread is reacquiring for it. |
| Capacity.CapacityIsLeasesHeld | internal/orchestrator/daemon_windows.go:599-615 | With no thread between two steps nothing is resuming, and the capacity in use is the number of leases held. |
| Capacity.FreeSlotsCanBeTaken | internal/orchestrator/daemon_windows.go:617-666 | Then a parked execution can begin to resume if and only if fewer leases than the limit are held, and one that holds a lease can be parked if and only if fewer than the limit are parked. |
| Capacity.DeniedResumeChangesNothing | internal/orchestrator/daemon_windows.go:664-697 | A resume that the governor denies leaves everything as it was. |
| Capacity.GrantedResumeTakesTheSlot | internal/orchestrator/daemon_windows.go:664-684 | A granted resume takes a new lease and one slot, and changes nothing else. |
| Capacity.ParkFreesTheSlot | internal/orchestrator/daemon_windows.go:617-642 | Parking frees the claim and one slot, and changes nothing else. |
| Capacity.LaunchRegistersIff | internal/orchestrator/daemon_windows.go:436-445 | An admitted execution is registered with its lease if and only if it is not there yet and there is a free slot and place. |
| Capacity.RefusedLaunchChangesNothing | internal/orchestrator/daemon_windows.go:438-444 | Without room its claim goes again and nothing else has changed. |
| Capacity.RemovedIsGone | internal/orchestrator/daemon_windows.go:720-734 | Removal takes the entry away, and with a lease its claim. |
| Capacity.BoundedIsKept | internal/orchestrator/daemon_windows.go:436-445 | Slots are taken only after one was found free under the lock. |
| AdmissionGate.MaintenanceIsExclusive | internal/resourcegov/governor.go:302-323 | While an idle-maintenance callback runs nothing is active, and no step of any thread makes anything active. |
| AdmissionGate.MaintenanceRunsIffIdle | internal/resourcegov/governor.go:307-322 | Once locked, the callback runs if and only if nothing is active; either way the lock is given back and nothing else changes. |
| AdmissionGate.GateIsGivenBack | internal/resourcegov/governor.go:157-165 | Without calls under way the gate is free, so maintenance can lock it. |
| AdmissionGate.CallTakesTheGate | internal/resourcegov/governor.go:157-165 | A call begins if and only if it needs no gate or maintenance has not locked it; a call that can admit holds the gate from then on, and maintenance cannot lock it meanwhile. |
| AdmissionGate.ReleaseUndoesAdmission | internal/resourcegov/governor.go:157-177 | With a snapshot and the gate exactly the ids that are not active can be admitted, and a release undoes the admission. |
| AdmissionGate.InvalidationForcesAScan | internal/resourcegov/sensor_windows.go:380-386 | The first check after an invalidation scans. |
| AdmissionGate.WaysOutOfACall | internal/resourcegov/governor.go:157-177 | An admission makes exactly its claim active; every way out of a call gives the gate back. |
| AdmissionGate.SnapshotsAreFresh | internal/resourcegov/sensor_windows.go:323-386 | What a call reports was scanned after every invalidation before its cache check, even if an older scan finishes later; a cached value was scanned less than the TTL before the call. |
| AdmissionGate.HitIff | internal/resourcegov/sensor_windows.go:323-332 | A call reports the cached scan if and only if caching is on, there is one, and it was asked for less than the TTL before; otherwise it scans. |
| AdmissionGate.ScanIsPublishedIff | internal/resourcegov/sensor_windows.go:371-377 | A finished scan becomes what later calls find if and only if nothing was invalidated since it began. |
| AdmissionGate.CacheStaysCurrent | internal/resourcegov/sensor_windows.go:371-377 | An overtaken scan is never published. |
| AdmissionGate.ScansStayFair | internal/resourcegov/sensor_windows.go:323-332 | A running scan of the current generation began after the last invalidation. |
| AdmissionGate.DiskUsageSensor.Check | internal/resourcegov/sensor_windows.go:324-332 | A hit if and only if the cache is enabled, filled and younger than the TTL. |
| AdmissionGate.DiskUsageSensor.Publish | internal/resourcegov/sensor_windows.go:371-377 | Published if and only if nothing was invalidated since the check. |
| AdmissionGate.DiskUsageSensor.InvalidateMARDiskUsageCache | internal/resourcegov/sensor_windows.go:380-386 | Empties the cache and starts a new generation. |
| AdmissionGate.DiskUsageSensor.AddUpFiles | internal/resourcegov/sensor_windows.go:334-366 | The scan's total is the true total of the positive sizes, cut off at 2^64-1, in any order. |
| Scheduler.AgingIsMonotone | internal/scheduler/scheduler.go:329-339 | Waiting never makes a task less urgent. |
| Scheduler.AgingReachesZero | internal/scheduler/scheduler.go:329-339 | After three aging intervals every task is at effective rank 0. |
| Scheduler.PrecedesIsStrict | internal/scheduler/scheduler.go:308-325 | Two projects' candidates are always ordered, one way only. |
| Scheduler.PrecedesIsTransitive | internal/scheduler/scheduler.go:308-325 | The comparison is transitive, so sorting by it is meaningful. |
| Scheduler.SelectionIsUnique | internal/scheduler/scheduler.go:292-327 | There is exactly one right selection, whatever the map's iteration order and the sort's instability. |
| Scheduler.FindCandidates | internal/scheduler/scheduler.go:293-303 | Each project's candidate is the first of its waiting tasks that no other would replace. |
| Scheduler.SelectTask | internal/scheduler/scheduler.go:292-353 | The selected task is the most urgent of all, by the names of the priorities and one class less for each full aging interval; of equally urgent ones of a project the longest waiting, then the oldest; of projects the one never dispatched, then the one dispatched longest ago, then the longest waiting, then the least name. It leads its project and precedes every other project's leader. |
| Scheduler.UrgencyIsEffective | internal/scheduler/scheduler.go:329-353 | The effective rank is the class of the priority's name (P0 or CRITICAL, P1 or HIGH, P2, NORMAL or MEDIUM, any other) less one for each full aging interval, down to 0. |
| Scheduler.RoundMakesProgress | internal/scheduler/scheduler.go:308-325 | A dispatch that passes a rank-0 task over uses up a task ahead of it or the turn of a rival project. |
| Scheduler.PassedOverIsShort | internal/scheduler/scheduler.go:262-264 | Each such dispatch lowers a bound of k*N plus the rivals' turns. |
| Scheduler.BoundedWaiting | internal/scheduler/scheduler.go:262-264 | A rank-0 task with k tasks of its project ahead of it is dispatched within (k+1)*N successful dispatches, N being the number of projects. |
| Scheduler.BoundIsReached | internal/scheduler/scheduler.go:308-325 | The bound is tight: a history in which a task with one task ahead of it and two projects is passed over three times. |
| PageRank.RanksAreADistribution | internal/contextengine/ranking.go:444-470 | In every round all ranks are non-negative and add up to exactly 1. |
| PageRank.StepKeepsDistributions | internal/contextengine/ranking.go:445-469 | One round keeps a distribution a distribution. |
| PageRank.StepContracts | internal/contextengine/ranking.go:445-469 | One round shrinks the L1 distance of any two rank vectors to at most 0.85 of it. |
| PageRank.RoundsConverge | internal/contextengine/ranking.go:444-470 | Successive rounds are at most 2*0.85^t apart, each distance at most 0.85 of the one before. |
| PageRank.RanksApproachStationary | internal/contextengine/ranking.go:444-470 | The ranks after t rounds are within 2*0.85^t of every stationary distribution. |
| PageRank.GraphIsStochastic | internal/contextengine/ranking.go:450-468 | With a positive seed every candidate, dangling or not, hands on its whole rank in non-negative shares. |
| PageRank.InflowAddsUp | internal/contextengine/ranking.go:449-468 | A round hands on exactly what there is. |
| PageRank.ShareOut | internal/contextengine/ranking.go:457-467 | The target loops add exactly the source's shares, in whatever order. |
| PageRank.Round | internal/contextengine/ranking.go:445-469 | The nested loops over maps compute one step of the walk. |
| PageRank.PersonalizedPageRank | internal/contextengine/ranking.go:421-472 | The result is the twentieth round, or empty without a candidate that carries a positive seed. |
| RealSums.SumsExchange | internal/contextengine/ranking.go:449-468 | Sums by source and by target agree. |
| KeyedLocks.MutualExclusion | internal/processctl/sandbox_windows.go:115-117 | Two holders of one key are one thread, for any callers and key sets. |
| KeyedLocks.EntryWhileUsed | internal/processctl/sandbox_windows.go:102-133 | An entry is in the map exactly while it is referenced, and its count is the number of threads that use it. |
| KeyedLocks.NoWaiterIsStranded | internal/processctl/sandbox_windows.go:102-133 | Whoever waits, waits on the mutex object that the map holds for the key. |
| KeyedLocks.NoDeadlock | internal/processctl/sandbox_windows.go:181-185 | With sorted keys and profile before path, behind every blocked thread there is an unblocked one at the end of the chain of holders. |
| KeyedLocks.EveryWaitEnds | internal/processctl/sandbox_windows.go:679-718 | The chain of holders is finite and names each blocker. |
| KeyedLocks.FreeLockIsTaken | internal/processctl/sandbox_windows.go:102-117 | A thread without locks can ask for a free lock and take it. |
| KeyedLocks.HeldLockIsGivenBack | internal/processctl/sandbox_windows.go:118-132 | Unlocking gives the mutex back and forgets the reference. |
| KeyedLocks.LockAndUnlock | internal/processctl/sandbox_windows.go:102-132 | Locking and unlocking leaves the entries, the owners and every thread as they were. |
| KeyedLocks.BeforeIsStrict | internal/processctl/sandbox_windows.go:102-102 | The order of the locks is strict and total: by registry, profile before path, then by key. |
| KeyedLocks.AllCountedIsKept | internal/processctl/sandbox_windows.go:102-133 | Referencing and dereferencing keep every count equal to the number of users. |
| KeyedLocks.DereferencedEntry | internal/processctl/sandbox_windows.go:123-131 | A decrement leaves every other key alone, and the entry goes exactly with its last reference. |
| KeyedLocks.BoundIsKept | internal/processctl/sandbox_windows.go:102-133 | No step takes an entry away from a thread that still uses it. |
| KeyedMutexRegistry.LeaveUndoesEnter | internal/processctl/sandbox_windows.go:89-133 | Unlocking gives back the same entries, objects and counts that locking found. |
| KeyedMutexRegistry.KeyedMutexRegistry.Normalize | internal/processctl/sandbox_windows.go:90-102 | The non-empty keys, each once, in ascending order. |
| KeyedMutexRegistry.KeyedMutexRegistry.Enter | internal/processctl/sandbox_windows.go:103-114 | References each normalized key once and remembers its object. |
| KeyedMutexRegistry.KeyedMutexRegistry.Leave | internal/processctl/sandbox_windows.go:119-133 | Dereferences each key and drops an entry exactly when its count reaches zero and it is still the map's. |
| AgentLoop.Loop.Run | internal/agent/loop.go:374-764 | A whole run, turn by turn: from where it begins each turn leads to its exchange and to where the next begins, until one ends the run as its plan says, or all have been taken, which exhausts the budget. Every request is a transcript in which each assistant message is followed at once by one bounded reply per call; with a projection it ends in exactly the previous exchange, otherwise it extends the request before; no call id is acted upon twice; requests, calls and payload keep their limits; only allowed tools are run. The run completes if and only if the last turn acted upon a lone finish_task that declares a completed candidate, and ends as any other declaration says. |
| AgentLoop.Loop.CompletionIsDeclared | internal/agent/loop.go:621-631 | Of all the ways in which a turn can end a run, only a lone finish_task that declares a completed candidate completes it, and it always does. |
| AgentLoop.Loop.Turn | internal/agent/loop.go:379-761 | One turn does what its plan says: nothing is acted upon if it stops the run; otherwise the calls of the response are acted upon in order, and either the last of them ends the run with its outcome or all their replies become the exchange; tokens, payload, calls and ids are counted. |
| AgentLoop.Loop.BeforeTurn | internal/agent/loop.go:380-416 | The first thing that stands against a turn decides how the run ends: the context, the attempt, the controls, a cancellation, the tokens; otherwise the turn goes on with one message for each steering control or input. |
| AgentLoop.Loop.TurnBeginsIff | internal/agent/loop.go:380-416 | A turn begins if and only if the context lives, the attempt is current, the controls are usable and do not cancel, and tokens are left. |
| AgentLoop.Loop.SteersAndInputsAreTold | internal/agent/loop.go:782-805 | Each steering control and each input gives one message, no other control does. |
| AgentLoop.Loop.Send | internal/agent/loop.go:464-520 | A valid request is sent if and only if it fits the bound for one request and what is left of the episode's payload, and then counts; a request with a nameless call is rejected; a failed answer ends the run as the context says, or blocked. |
| AgentLoop.Loop.CheckResponse | internal/agent/loop.go:522-573 | A response goes on if and only if its accounting is usable and it is complete, of the assistant and within every bound; otherwise the first of these that fails decides between blocked and exhausted. |
| AgentLoop.Loop.CheckBatch | internal/agent/loop.go:577-617 | A batch passes exactly if it is non-empty, within both call limits, has named ids that are new and distinct, and holds a reserved call only alone; it ends exhausted exactly over a limit, else blocked. |
| AgentLoop.Loop.RunBatch | internal/agent/loop.go:618-747 | Calls are acted upon in order, each once and from the answers after those of the call before; each leads to what its tool does; the first that ends the run is the last; otherwise every call has one bounded reply with its result, and the owner's input follows. |
| AgentLoop.Loop.ExecuteCall | internal/agent/loop.go:621-746 | What a call leads to, tool by tool: finish_task ends the run with the status it declares, request_input and checkpoint_task as below, a coding tool is run if and only if it is allowed and, when it can change the workspace, the attempt is current; errors are shown; exactly the evidence that does not fit or is incomplete is stored. |
| AgentLoop.Loop.FinishTask | internal/agent/loop.go:621-631 | The same, with what is declared recorded. |
| AgentLoop.Loop.UseCodingTool | internal/agent/loop.go:706-745 | A tool is run if and only if it is allowed and, when it can change the workspace, the attempt is current; what follows is decided by the context, the tool's success and the persistence of its evidence. |
| AgentLoop.Loop.RequestInput | internal/agent/loop.go:632-676 | A failed preparation is answered; a stale attempt or a failed transition ends the run; otherwise it is answered exactly if input and no cancellation ended the wait. |
| AgentLoop.Loop.PublishCheckpoint | internal/agent/loop.go:677-705 | A failed preparation is answered; a stale attempt or a failed publication ends the run; otherwise the checkpoint is shown. |
| AgentLoop.Loop.ShowObservation | internal/agent/loop.go:725-745 | Evidence that does not fit or is incomplete is shown if and only if the store has taken it first, else the run blocks; what fits is shown as it is, and complete evidence that fits is not stored. |
| AgentLoop.Loop.Record | internal/agent/loop.go:574-575 | The kept transcript after a turn, including the truncation of the message list with a projection. |
| AgentLoop.Loop.KeepTranscript | internal/agent/loop.go:748-760 | With a projection exactly the assistant message and its replies survive. |
| AgentLoop.Loop.ConsumeControls | internal/agent/loop.go:767-811 | All controls are taken or none: success if and only if every control is intact, known and in rising order. |
| AgentLoop.Loop.WaitForInput | internal/agent/loop.go:817-848 | Input or a cancellation ends the wait at the poll that reads it, a cancellation winning; nothing else but context, authority, a broken control stream or patience does; every steering or input message read is kept. |
| AgentLoop.WellFormedAppend | internal/agent/loop.go:574-575 | Well-formed transcripts can be appended. |
| Observations.BoundedObservationEnvelope | internal/agent/loop.go:1163-1181 | The envelope keeps the bound for every encoder, shows a prefix of the text, shows a text that fits whole, and otherwise the longest of the halved first parts whose encoding fits. |
| Observations.BoundedArtifactObservation | internal/agent/loop.go:1115-1144 | The preview keeps the bound for every encoder, is whole if it fits with the reserve, otherwise the longest of the halved first parts whose encoding fits, and is given up only if not even an empty one does. |
| Observations.BoundObservation | internal/agent/loop.go:1146-1154 | A fitting observation is shown unchanged, a blank one by its notice, any other by a bounded envelope of a first part. |
| Text.TruncateUTF8 | internal/contextengine/engine.go:740-752 | The longest well-formed prefix that fits; well-formed text loses at most three bytes more than needed. |
| Text.CharacterIsEncoded | internal/agent/loop.go:1190-1202 | What counts as a well-formed character is the encoding of a Unicode scalar value (sections 3 and 4 of RFC 3629). |
| Text.EncodedIsCharacter | internal/agent/loop.go:1190-1202 | Conversely every such encoding counts, whatever follows it. |
| Text.BoundaryIsNear | internal/agent/loop.go:1190-1202 | Every position of well-formed UTF-8 is at most three bytes after a character boundary. |
| Budget.NoReasonMeansAllPositive | internal/service/convergence_budget.go:135-180 | Outside harness mode an empty stop reason holds if and only if every remaining limit is positive and progress is being made. |
| Budget.FirstLimitReachedIsTheReason | internal/service/convergence_budget.go:164-178 | The reason to stop is the first limit reached, in the order progress, decisions, tool calls, tokens, time, attempts; a harness looks at progress, time and attempts only. |
| Budget.LimitsAreTheLeast | internal/orchestrator/task_budget.go:34-75 | An admitted attempt gets of everything the least of what is allowed, left and configured, and not less. |
| Budget.DefaultsReinflateIffExhausted | internal/agent/loop.go:184-226 | The agent's defaults give more than what remains exactly when nothing remains. |
| Budget.SpendsWhatIsLeft | internal/orchestrator/task_budget.go:34-75 | Attempts whose usage is recorded spend at most what was left before them. |
| Budget.TaskTotalsAreCapped | internal/orchestrator/task_budget.go:34-75 | Over any number of attempts with recorded usage: at most 24 model turns and 64 tool calls. |
| Budget.ProviderTotalsAreBounded | internal/store/convergence_budget.go:165-225 | In provider mode, where only durable web turns are counted: at most 12 turns and 64 calls for each of the three attempts and each approved one, whatever the configurations. |
| Budget.ProviderCapsExactly | internal/store/convergence_budget.go:165-225 | For a configuration, a number of approvals and any cap: the cap holds in every provider-mode history if and only if (3 + approvals) times the configured limit of an attempt is within it. |
| Budget.ProviderKeepsTheTaskCapsIff | internal/store/convergence_budget.go:165-225 | Without approvals the caps of 24 turns and 64 calls hold in provider mode if and only if the configured limits are between 1 and 8 turns and between 1 and 21 calls. |
| Budget.ApprovalsExceedEveryCap | internal/store/convergence_budget.go:165-225 | With approvals no number caps the turns or the calls, whatever the configuration. |
| Budget.ProviderModeExceedsTheCap | internal/store/convergence_budget.go:165-225 | A provider-mode history without approvals that reaches 36 turns and 192 calls. |
| Budget.OneApprovalOneAttempt | internal/service/convergence_budget.go:194-203 | Over all attempts of a task, an approval that let one attempt begin lets no later one begin. |
| WebWait.WebWaitDuration | internal/store/convergence_budget.go:102-163 | Overlapping waits count once: the total is never more than the time waited, and equals it if and only if no row waits, alone, before the start of the wait that is open when it is read; so it does with the rows in order of their start. |
| WebWait.TotalIsExactIff | internal/store/convergence_budget.go:102-163 | The same about what the loop adds up to. |
| WebWait.OrderedRowsLoseNothing | internal/store/convergence_budget.go:102-163 | Rows in order of their start lose nothing. |
| WebWait.TextOrderIsTimeOrderIff | internal/store/convergence_budget.go:103-107 | Two timestamps of one second are in text order if and only if the digits of the earlier one are not a prefix of the digits of the later one. |
| WebWait.LateRowIsLost | internal/store/convergence_budget.go:102-163 | Two waits whose timestamps sort the wrong way round, half a second and the full second: half of the time waited is lost. |
| Decimal.SettledDescribesItself | internal/contextengine/projection.go:265-276 | The size that the rounds reach describes itself, and no smaller size does. |
| Decimal.SettledFitsIff | internal/contextengine/projection.go:265-276 | The settled size fits a bound if and only if the constant part leaves room for the digits of the bound. |
| Decimal.SettledIsClose | internal/contextengine/projection.go:265-276 | A size field adds at most seven bytes in the ranges used. |
| Projection.Settle | internal/contextengine/projection.go:265-276 | From an empty size field four rounds are enough. |
| Projection.BuildDecisionProjection | internal/contextengine/projection.go:124-278 | It succeeds if and only if the state is consistent (identities, a complete order of controls, acceptable and distinct artifacts, every critical one present) and what trimming leaves of the full projection leaves room for the digits of the bound; then the size field is the encoded size and within the bound, every control and every critical artifact is there, and cuts are marked. |
| Projection.StopsTooEarlyIff | internal/contextengine/projection.go:245-276 | Trimming measures with an empty size field; it stops too early if and only if the constant part is under the bound by less than the digits of the bound. |
| Projection.FailsWithRoomToTrim | internal/contextengine/projection.go:245-276 | The method fails there although dropping its only entry would make the projection fit. |
| Projection.OrderControls | internal/contextengine/projection.go:143-157 | All durable controls in strictly rising order, ending with the latest; it succeeds if and only if they have such an order. |
| Projection.CompleteIsSorted | internal/contextengine/projection.go:144-151 | Only sorting can give such an order. |
| Projection.ChooseArtifacts | internal/contextengine/projection.go:184-239 | Every critical artifact first, then as many of the others as fit, those of the least handles, none twice; it succeeds if and only if all are acceptable and distinct, every critical handle has its artifact and these are within the bound. |
| Projection.Trim | internal/contextengine/projection.go:245-264 | Removes oldest events, last entries, last terms, optional artifacts: none of a kind before all of the kinds before it are gone, until it fits or nothing is left, and one item earlier it was still too large. |
| Projection.BoundDecisionRecent | internal/contextengine/projection.go:307-329 | The newest window from its oldest event on, all of it unless the byte budget is used up exactly; cut at most in its last event. |
| Projection.FitPack | internal/contextengine/engine.go:710-738 | Ends within the bound or with no terms and entries; a first part of the entries is kept and only the last text shortened; nothing is taken from a pack that fits, and one step earlier it was still too large; the one case in which the byte count is stale. |
| Projection.CutOnce | internal/contextengine/engine.go:715-736 | A step takes the last term, or the last entry, or the end of its text, at most the excess and 35 bytes. |
| Delta.PatchingGivesCurrent | internal/service/cognition_delta.go:284-309 | Applying changed and removed sections gives the current keys, with values equal as float64 JSON. |
| Delta.PatchingIsExactIff | internal/service/cognition_delta.go:380-388 | The patched sections are exactly the current ones if and only if no two different values of a section are conflated. |
| Delta.PatchingIsExact | internal/service/cognition_delta.go:284-309 | With integers up to 2^53 the round trip is exact and the changed keys are exactly the differing ones. |
| Delta.ConflatedNumbersAreNotSent | internal/service/cognition_delta.go:380-388 | A change between two integers with the same nearest float64 is not sent, and the receiver keeps the old one. |
| Delta.LargeNumbersAreConflated | internal/service/cognition_delta.go:380-388 | A section that goes from 2^53 to 2^53 + 1 is not sent. |
| Delta.Float64IsNearest | internal/service/cognition_delta.go:380-388 | The rounding that stands for a JSON number's float64: the nearest number with 53 binary digits, and at a tie the one with the even significand. |
| Delta.Float64Rounds | internal/service/cognition_delta.go:380-388 | Rounding to the nearest float64 is the identity up to 2^53 and takes 2^53 + 1 to 2^53. |
| Delta.DiffIsUnique | internal/service/cognition_delta.go:284-309 | The patch is determined by the two section maps. |
| Delta.RebuiltIsCurrentIff | internal/service/cognition_delta.go:208-228 | The rebuilt request is the current one if and only if its sections are and no field becomes empty. |
| Delta.UnchangedFieldsAreLeftOut | internal/service/cognition_delta.go:213-228 | Exactly the changed fields are sent, as far as they are not empty. |
| Delta.DiffProjectionSections | internal/service/cognition_delta.go:284-309 | Exactly the new and differing sections with their current values, and exactly the vanished keys, sorted. |
| Delta.LatestAutomaticCognitionBase | internal/service/cognition_delta.go:112-143 | The latest intact and answered predecessor of the same attempt, of two of one moment the one with the greater id, if the current turn is in the history at all. |
| Delta.ReportedSizeIsClose | internal/service/cognition_delta.go:337-349 | Two passes leave the reported size within one of the true length, from either seed, and say when it is exact. |
| Delta.FinalizedIsClose | internal/service/cognition_delta.go:337-349 | For messages of real sizes the reported size is within one of the true length. |
| Delta.BuildCognitionDelta | internal/service/cognition_delta.go:145-245 | A delta if and only if the base is usable and the delta is reported shorter than the full request; it is the difference of the two; otherwise the full request; either way the whole message is determined and, for real sizes, its reported size within one of the true length. |
| SessionTracker.AvailableCountIsExact | cmd/mar/remote_bridge.go:298-319 | Whenever the count is available, the sessions it misses are exactly the dropped ones that expire at that very moment, so it equals the unlimited count if and only if there is none. |
| SessionTracker.AvailableIff | cmd/mar/remote_bridge.go:298-313 | The count is available if and only if a session has been named and none has overflowed within the last half hour. |
| SessionTracker.FewSessionsAreAlwaysCounted | cmd/mar/remote_bridge.go:618-647 | While there are never more than 256 sessions at a time, all are tracked and the count stays reliable. |
| SessionTracker.UnlimitedMeansSeenLately | cmd/mar/remote_bridge.go:284-296 | In the unlimited tracker a session counts if and only if its last event is no DELETE and not more than half an hour ago. |
| SessionTracker.AgreementAlways | cmd/mar/remote_bridge.go:618-647 | Every untracked live session expires by the time until which tracking is unreliable. |
| SessionTracker.LimitHolds | cmd/mar/remote_bridge.go:642-646 | At most 256 sessions are tracked, in whatever order event times come. |
| SessionTracker.RemoteConnectorTelemetry.Prune | cmd/mar/remote_bridge.go:284-296 | Removes exactly the sessions older than the timeout. |
| SessionTracker.RemoteConnectorTelemetry.Observe | cmd/mar/remote_bridge.go:618-647 | One event, as the bounded tracker's rules say. |
| SessionTracker.RemoteConnectorTelemetry.Publish | cmd/mar/remote_bridge.go:298-319 | The count is published exactly when tracking has been seen and is reliable. |

## Left out

- Integration.AllOrNothing: assumes that no further attempt is prepared in the same project during the run; `BlockedAfterSwapIff` and `BlockedAfterSwapIsContained` say what remains with several live attempts.
- Integration.SoundIsKept: the pin clause needs a store whose errors mean "not applied".
- IntegrationManager.Host.DriveAttempt: the check of the checkout and its update are one step for the owner's edits where `OwnerIdle` is assumed; an edit that falls exactly between them is not covered.
- Containment.ProofIsFinal: the verification engine's own sandbox processes run after the worker has ended and are not part of the attempt here.
- Supervisor.Host.WriteAssignedMarker: the marker is one flag of the launch machine; the file protocol is proved in MarkerFile and joined to it only by that flag.
- Supervisor.Host.RecoverTermination: an unreadable marker is a failing call.
- Containment.SingleLiveWriter: the task runner's and daemon's gates (failWorker, finishNonCandidate, driveRetries, driveBlockedChoices) appear as the guards of the machine's store steps, not as methods.
- AdmissionGate.SnapshotsAreFresh: about admission snapshots; a pressure snapshot may join a scan that another pressure snapshot began earlier.
- Scheduler.BoundedWaiting: counts successful dispatches with increasing times; denied admissions and failed workspace preparations are not counted.
- Scheduler.SelectTask: priorities are given trimmed and in upper case; the sort of the library is an insertion sort.
- PageRank.PersonalizedPageRank: over the reals, without floating-point rounding.
- KeyedLocks.NoDeadlock: the registry's own mutex and process-wide abandoned mutexes are not steps; keys are given trimmed and in lower case.
- AgentLoop.Loop.Run: starts at the first turn; the checks of the request, the first context pack and the checkpoint before it are not modelled, nor are the texts of blockers. A blank call id is the empty string. Token totals are checked after a turn, so the last turn may overshoot them.
- Budget.TaskTotalsAreCapped: turns and tool calls only, not tokens or time; the counting of web turns itself is the hypothesis.
- Projection.BuildDecisionProjection: the comparison of identities and hashes is one flag; checkpoint, result and evidence are part of the constant size.
- Delta.BuildCognitionDelta: cursors, hashes and event kinds are not modelled; JSON values are canonical, their numbers integers in the range of a float64.
- WebWait.TextOrderIsTimeOrderIff: about moments of one second; the part of a timestamp before its fraction has a fixed width.
- Governor.Governor.TryAcquire: the sensor's snapshot is a parameter, and claims are taken to be valid; pressure evaluation of admitted work is not modelled.
- The reclamation stages of the scheduler's step, preflight and the daemon's polling loops: sequences of calls to parts that are not modelled.
- Reciprocal-rank fusion, BM25, the regular-expression and Go scanners, snippet extraction: scoring heuristics.
- The SQLite store, the verification engine, the workspace manager, pipes and process launching beyond jobs and handles, access-control grants.
- Owner user interface, HTTP and MCP handlers, tunnels, packaging, command-line flags, retention pruning, path and URL guards.

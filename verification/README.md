# PyFog: a verified model of its coordination protocol and data plane

PyFog captures, stores, distributes and restores disk images over PXE. This project models the parts of it that have
to be right together, and proves what each of them promises.

**The task coordinator.** Tasks, attempts, events, images and the artifact store change together in about a dozen
kinds of requests. `TaskModel` and `TaskSteps` define what every request commits; `Step` is the transition relation
and `TaskRuns.Run` its runs, with time as an input of every step. `TaskInvariants`, `TaskPreservation`, `TaskRequests`
and `TaskOperations` prove the joint invariant step by step; `TaskRuns` and `TaskHistories` derive theorems about whole
runs, `TaskExclusivity` the exact condition of lease exclusivity; `TaskZombies` exhibits the runs that break the
promises the code does not keep. `TaskResults`, `TaskReports`, `TaskEffects` and `TaskKeys` say what each request does
without naming the functions that do it. `Messages` is what an event keeps of a message and `Redaction` what it hides.
`Coordinator` is the same machine in the form the source has, one object whose rows are changed in place, and proves that
every request it handles is one step of the relation. `Backup` adds the catalogue check of a backup.

**The data plane.** `Transfer` (block manifests, resumable block writes), `Storage` (append-only upload, verification,
publication), `CaptureDownload` (the agent's capture and download loops against that store), `ImagePipeline` (a whole
image captured, published and restored), `Relay` (the bounded content-addressed cache) and `Multicast` (pieces for all,
repairs for some). A file is a sequence of bytes; writing past its end leaves zeros. SHA-256 is an arbitrary function:
where contents are concluded to be equal, the conclusion is "equal, or here are two byte strings with one digest".

**Smaller cores.** `Fencing` (the active/passive lease, under clocks that may disagree), `Layout` (partition overlap
scans and root expansion), `Hooks` (the post-deployment saga), `Credentials` (rotation and revocation) and `DiskMapping`
(multi-disk plans).

## Findings

Four promises fail as the code is written. Each failure is a lemma, and so is the exact condition under which the
promise holds.

- Lease exclusivity. `expire_stale_tasks` also selects superseded and finished attempts (pyfog/tasking.py:313-320), so a
  lease that elapsed long ago can send a task back to the operator while its new agent works. `ManyAgentsAtOnce` builds
  runs with any number of agents at once. Exclusivity rests on ownership: every honoured capability belongs to the newest
  attempt of the task holding the slot. A step loses ownership if and only if it reconciles a task that has an unexpired
  lease (`StepKeeps`, `CarelessLosesOwnership`), and such a step costs exclusivity itself: at the same instant an expiry
  and a claim lead to two honoured capabilities (`CarelessCostsExclusivity`). A run is exclusive if and only if it takes
  no such step (`CarelessnessIsExact`); with the query restricted to each task's newest attempt that cannot happen
  (`NewestOnlyIsExclusive`), and an agent that reports in time is never expired (`PunctualIsSpared`).
- Catalogue agreement. A capture can be published while its task is back in the queue; the transition then fails and
  leaves a publication whose image is still capturing (`CatalogueCanBreak`). A step breaks the agreement if and only if
  it is a result that meets the guard of publication (`FinishPublishes`) for a task not in flight, or a recovered backup
  that catches a capture at work (`StepCatalogue`, `BackupCatalogue`); `BackupCanBreak` is a run of the second kind.
- Replay. A repeated progress report is compared in raw form with the stored message, in which blanks are squeezed, text
  past 500 characters is cut and credentials are redacted, so it is recognised exactly when that leaves the message alone
  (`ExactReplay`). A doubled blank is enough to turn an honest repetition into a conflict (`UntidyReplayConflicts`,
  `HonestRepeatConflicts`).
- Resumption. A staging file longer than the artifact never converges (`ResumeConverges` is an if-and-only-if); the
  download loop removes such a file first (`DownloadArtifact`).

The hook ledger keeps the keys of compensated steps, so they are never run again (`CompensatedNotRepeated`).

## Model

| member | source | states |
|---|---|---|
| Transfer.ValidateLayout | pyfog/transfer.py:41-61 | the checking loop accepts a manifest exactly when its blocks are numbered in order, contiguous, within the block size and end at the artifact's size |
| Transfer.TilesPartition | pyfog/transfer.py:33-61 | an accepted layout is a partition: a byte position lies in some block exactly when it is inside the artifact, and never in two |
| Transfer.BuildTransferManifest | pyfog/transfer.py:77-110 | indexing fails exactly on an empty or oversized file, a bad block size or too many blocks; otherwise the manifest is in range, tiles the file, carries the digest of every block, has the ceiling number of blocks, all full but the last |
| Transfer.VerifiedBlockIndices | pyfog/transfer.py:113-134 | the loop returns exactly the blocks whose bytes are present and hash right; nothing for an absent or oversized file |
| Transfer.MissingBlockIndices | pyfog/transfer.py:137-141 | the complement, each index once, in transfer order |
| Transfer.StagingFile.WriteVerifiedBlock | pyfog/transfer.py:144-184 | in-place write of one block: refused, recognised as a repeat, or written at its offset in a sparse file |
| Transfer.StagingFile.VerifyCompleteTransfer | pyfog/transfer.py:187-195 | passes exactly on a file of the right size with no block missing |
| Transfer.WriteMakesProgress | pyfog/transfer.py:144-184 | an admissible write settles its own block, un-verifies no other one, and keeps the file within the artifact's size |
| Transfer.WriteDecides | pyfog/transfer.py:144-184 | a payload is refused unless it is the block the manifest names with its size and digest; a block already there stays; otherwise its bytes are put in place and no other byte of the file changes |
| Transfer.ResumeConverges | pyfog/transfer.py:113-195 | from any staging, corrupt, partial or sparse, after delivering every missing block in any order and with any repeats, verification passes if and only if the staging was not longer than the artifact |
| Transfer.CompleteIsSource | pyfog/transfer.py:187-195 | a file that passes verification against a source's manifest is that source, or two different byte strings share a digest |
| Storage.UploadOnlyAppends | pyfog/storage.py:150-220 | no upload alters a staged byte: old content stays a prefix, other files, other tasks and publications are untouched, and a task never stages more than the image limit |
| Storage.OutOfPlaceChunk | pyfog/storage.py:191-201 | a chunk that neither continues the file nor repeats its tail is refused and changes nothing |
| Storage.ChunkDecides | pyfog/storage.py:150-220 | a sound chunk is appended if and only if it begins where the file ends and allowance and disk have room; it is taken for a repeat if and only if it ends there with a tail of its digest, which is then the tail up to a collision |
| Storage.UploadExactlyOnce | pyfog/storage.py:150-220 | with every chunk delivered any number of times before the next, the staged file is exactly the concatenation of the chunks |
| Storage.ArtifactStore.WriteChunk | pyfog/storage.py:150-220 | the in-place upload does what the step relation of the store says, in every accepting and refusing branch |
| Storage.ArtifactStore.StoredSize | pyfog/storage.py:202-207 | the loop sums the sizes of all files of a task, whatever the order |
| Storage.ArtifactStore.VerifyArtifacts | pyfog/image_manifest.py:703-746 | accepts exactly when every declared artifact is present with its size, digest and blocks |
| Storage.ArtifactStore.VerifyAndPublish | pyfog/storage.py:297-348 | publishes exactly when manifest, limits, space, staged files (all declared, all verified) and an unused destination allow it, moving the whole directory; otherwise nothing changes |
| Storage.PublicationIsSound | pyfog/storage.py:297-348 | a publication is a new directory of exactly the declared files, each of the declared length, digest and blocks, within the image limit; no other directory changes |
| Storage.ArtifactStore.DeletePublishedImage | pyfog/storage.py:357-384 | removes that publication and nothing else |
| Storage.ArtifactStore.RemoveTaskStaging | pyfog/storage.py:386-405 | removes that task's staging and nothing else |
| CaptureDownload.CaptureArtifact | scripts/run_image_task.py:3626-3692 | the capture loop succeeds exactly when the stream is not empty, not over the block limit and fits the allowance; then the artifact entry has one block per chunk that describes the stream, and the server's staged file is the stream |
| CaptureDownload.DownloadArtifact | scripts/run_image_task.py:2297-2335 | whatever the staging held before, success means a complete verified transfer, and it always succeeds against a verified publication with servable blocks |
| CaptureDownload.BlocksServable | pyfog/api.py:480-510 | of a verified artifact a block is served exactly when it fits a request, and what is served is that block and admissible to the writer |
| CaptureDownload.CaptureToDownloadIsIdentity | scripts/run_image_task.py:3626-3692 | for one artifact, capture, upload, publication and block-wise download is the identity on bytes: every chunk is servable, and a complete download is the captured stream up to a digest collision |
| ImagePipeline.CaptureImage | scripts/run_image_task.py:3609-3692 | the loop over all partition streams succeeds exactly when each can be indexed and together they fit the allowance; then the entries describe the streams and the task stages exactly their files |
| ImagePipeline.CapturedMatches | pyfog/storage.py:297-348 | the manifest of a capture is well formed and matches exactly the captured files, so the server's verification of it cannot fail |
| ImagePipeline.RestoreImage | scripts/run_image_task.py:3144-3160 | success means a complete verified transfer of every artifact, and a verified publication with servable blocks always restores |
| ImagePipeline.CaptureThenRestore | scripts/run_image_task.py:3609-3692 | capture, publication and restore of a whole image: published exactly when the streams are capturable and manifest, space and destination allow it; then exactly the captured files are published, every download succeeds whatever its staging held, and each stream arrives as captured, up to a digest collision |
| TaskInvariants.TransitionsClimb | pyfog/tasking.py:112-122 | every allowed status change climbs a rank except reopening a task that required intervention |
| TaskInvariants.ExpireIsSound | pyfog/tasking.py:321-355 | expiring one attempt finishes it, frees the slot, keeps the host reserved, fails a capturing image and continues the attempt's event sequence |
| TaskInvariants.TouchIsSound | pyfog/tasking.py:597-649 | an accepted report never moves phase, bytes or known total backwards, comes from an unfinished attempt, renews its lease from now, and never reopens or closes a task |
| TaskInvariants.ProgressIsSound | pyfog/tasking.py:669-710 | a recorded progress event also raises the attempt's sequence to its own number and keeps cancellation marks |
| TaskInvariants.FailIsSound | pyfog/api.py:574-612 | failing ends task and attempt, releases slot and host, fails a capturing image, and never reuses a sequence number |
| TaskInvariants.AcknowledgeIsSound | pyfog/tasking.py:406-450 | an acknowledged cancellation ends task and attempt and continues the event sequence |
| TaskInvariants.CompleteIsSound | pyfog/api.py:681-706 | completion after a recorded verification is a sound change of the rows as they were before both |
| TaskInvariants.CommitKeepsInv | pyfog/tasking.py:174-209 | writing back the rows of any sound change keeps the joint invariant of all tasks, attempts and events |
| TaskInvariants.FreshSequence | pyfog/models.py:282 | a sequence above an attempt's high-water mark was never logged for it |
| TaskPreservation.ExpireSelects | pyfog/tasking.py:313-320 | expiry changes a task exactly when one of its attempts matches the query |
| TaskPreservation.ExpireIsThorough | pyfog/tasking.py:309-357 | after expiry a task still in flight is being worked on under a lease that has not elapsed |
| TaskRequests.PublicationKeepsCatalogue | pyfog/api.py:781-825 | the commit that publishes a pending capture leaves catalogue, store and tasks in agreement |
| TaskRequests.PublicationOrphaned | pyfog/api.py:781-799 | publishing for a capture that is back in the queue leaves a publication without a ready image |
| TaskRequests.FinishPublishes | pyfog/api.py:724-799 | a result changes the publications if and only if a guard over request and state holds: success and no cancellation, a capture, a fresh sequence, the reserved manifest, an attempt that can still verify, and a store that accepts the files |
| TaskRequests.FinishServes | pyfog/api.py:829-841 | any result an authorised attempt reports keeps the invariant and only moves forward, and breaks the catalogue if and only if the guard of publication holds for a task that is not in flight |
| TaskRequests.UploadServes | pyfog/api.py:515-569 | an authorised upload, even one whose heartbeat is refused after the bytes were written, keeps invariant, leases and catalogue |
| TaskRequests.AgentKeeps | pyfog/api.py:159-192 | any agent request, whatever capability it presents, keeps the invariant and moves forward; it publishes exactly when its capability is accepted and the guard holds, and breaks the catalogue exactly when that is for a task not in flight |
| TaskResults.ResultDecides | pyfog/api.py:574-841 | a reported result takes the task to succeeded, to failed or to cancelled, each if and only if a condition over request and state holds; otherwise it stays as open as it was, and the reply accepts exactly when the task ended |
| TaskResults.ResultEnds | pyfog/api.py:574-841 | what each end leaves behind, field by field: attempt finished with its reason, slot and host free, image failed, ready or untouched, staging moved, dropped or kept, the last event, and no other row changed |
| TaskEffects.CapabilityDecides | pyfog/api.py:159-192 | an agent request is served if and only if its task exists, its token is of an attempt of that task, the credential is usable, the task is open and the lease runs; an elapsed lease sets off the expiry, anything else changes nothing |
| TaskReports.ReportDecides | pyfog/tasking.py:608-629 | an authorised heartbeat, progress report or upload is accepted if and only if phase, bytes and total do not go back, the bytes stay within the total, the sequence is fresh and the chunk is taken; refused, it moves no row |
| TaskReports.ReportWrites | pyfog/tasking.py:630-649 | the rows after an accepted report, field by field, and that no other row changed |
| TaskReports.ReportExtendsLease | pyfog/tasking.py:630-632 | after an accepted report at now its capability is honoured exactly until now + leaseSeconds |
| TaskReports.PunctualIsSpared | pyfog/tasking.py:309-355 | with the query restricted to newest attempts, over any run whose steps all come within leaseSeconds of the agent's last accepted report, whatever others request, the agent goes on working under a lease until exactly then |
| TaskReports.SilenceIsExpired | pyfog/tasking.py:309-355 | and an expiry after such a run ends its work if and only if that time has come |
| TaskEffects.ExpiryEnds | pyfog/tasking.py:321-355 | expiry attempt by attempt: a selected one is finished as expired now, logged one sequence further, and its task handed to the operator; any other is as it was |
| TaskEffects.UploadStages | pyfog/api.py:515-569 | an upload stages what the store takes whether or not the heartbeat after it is accepted, and nothing for another task |
| TaskOperations.CancelKeeps | pyfog/tasking.py:360-403 | a cancellation request keeps invariant, lease ownership and catalogue, and sends no task to intervention |
| TaskOperations.DraftKeeps | pyfog/web.py:644-670 | registering an image keeps invariant, leases and catalogue |
| TaskOperations.ReconcileKeeps | pyfog/tasking.py:453-483 | reconciliation changes one task, keeps invariant and catalogue, and keeps lease ownership if and only if no lease of that task is still running |
| TaskEffects.ReconcileDecides | pyfog/tasking.py:453-483 | reopening needs a task that requires intervention, and puts it back in the queue as new, without cancellation marks, counters or staged bytes, its image capturing again |
| TaskOperations.CreateCaptureKeeps | pyfog/web.py:834-1000 | requesting a capture keeps the invariant (one active task per host), leases and catalogue (the image is capturing and its only capture is this task) |
| TaskEffects.CaptureDecides | pyfog/web.py:834-1000 | a capture is created if and only if the form is valid, key and host are free and the draft is one; task, image row and events as asked for, nothing else changed |
| TaskOperations.CreateDeploymentKeeps | pyfog/web.py:1053-1257 | requesting a restore or clone keeps all three; the image it will use is ready and published |
| TaskEffects.DeploymentDecides | pyfog/web.py:1053-1257 | a restore or clone is created if and only if the form is valid, key and host are free and the image is ready, verified, not deleted and completely published; the task is the operation asked for |
| TaskKeys.KeysAreUnique | pyfog/models.py:213 | in every reachable state a key belongs to at most one task |
| TaskKeys.AskingAgain | pyfog/web.py:902-907 | a key makes one task: asking again with it, after any run of requests, makes nothing, and its user is answered with the task made then |
| TaskOperations.LastNumberIsCount | pyfog/tasking.py:541-549 | because numbers have no gaps, the highest number of a task is the number of its attempts |
| TaskOperations.ClaimKeeps | pyfog/tasking.py:517-594 | a claim makes a fresh newest attempt, takes the free slot and keeps invariant, lease ownership and catalogue |
| TaskEffects.ClaimDecides | pyfog/tasking.py:512-540 | a claim gets a task if and only if its session is new, nobody holds the slot, and the host has an approved task it is capable of |
| TaskEffects.ClaimAssigns | pyfog/tasking.py:520-594 | it is the host's oldest approved task; the new attempt has the next number, the session that claimed it, and a capability honoured exactly until now + leaseSeconds |
| TaskOperations.DeleteKeeps | pyfog/web.py:763-808 | deleting an image without active tasks removes the row's publication and keeps everything in agreement |
| TaskEffects.DeleteDecides | pyfog/web.py:763-808 | an image is deleted if and only if it is there and no active task works on it; its publication goes, no other does |
| TaskOperations.BackupReachesAll | scripts/backup_server.py:373-398 | although the second update only looks for attempts the first one finished, it reaches every task in flight; none stays in flight or keeps the slot, no other task changes, and exactly the unfinished attempts of tasks in flight are finished by it |
| TaskOperations.BackupKeepsInv | scripts/backup_server.py:353-402 | the post-restore updates keep the joint invariant and leave no capability honoured that was honoured with the slot |
| TaskRuns.StepKeeps | pyfog/tasking.py:309-710 | every step of the coordinator keeps the joint invariant; all but reconciliation and backups only move tasks forward; lease ownership survives a step if and only if it is not a careless reconciliation |
| TaskRuns.StepCatalogue | pyfog/api.py:724-825 | catalogue, store and tasks stay in agreement across a step if and only if it is neither a result with an accepted capability that meets the guard of publication for a task not in flight, nor a backup that catches a capture at work |
| TaskRuns.BackupCatalogue | scripts/backup_server.py:353-402 | a recovered backup keeps the agreement exactly when it catches no uncancelled capture in flight |
| TaskRuns.Run | pyfog/api.py:313-841 | the state after any run of requests satisfies the joint invariant |
| TaskRuns.LeaseExclusivity | pyfog/api.py:159-192 | over any run in time order, however many reconciliations and backups occur, if none of the reconciliations was careless at most one capability in the system is honoured, and it belongs to the newest attempt of the task holding the slot |
| TaskRuns.CarelessLosesOwnership | pyfog/tasking.py:453-483 | until its first careless reconciliation a run keeps lease ownership, and that reconciliation loses it |
| TaskRuns.NewestOnlyIsExclusive | pyfog/tasking.py:313-320 | with the expiry query restricted to newest attempts and no backup, every run is careful by itself, so at most one capability is ever honoured |
| TaskExclusivity.CarelessCostsExclusivity | pyfog/tasking.py:453-483 | from any state of the invariant: reopen a task one of whose leases runs, and right after the next expiry, or right after the claim that follows it, two capabilities are honoured at once |
| TaskExclusivity.CarelessnessIsExact | pyfog/tasking.py:309-594 | for every run in time order: at each of its instants at most one capability is honoured, whatever agents claim at that instant, if and only if no reconciliation of the run reopens a task with a running lease |
| TaskHistories.ReservationsHold | pyfog/models.py:213-215 | in every reachable state slot, reservation, status and newest attempt of every task agree, and no two tasks share the slot or a host |
| TaskHistories.UnbrokenCatalogue | scripts/backup_server.py:286-328 | the agreement survives every run without a breaking step, told by each request and the state it finds |
| TaskHistories.CatalogueAgrees | scripts/backup_server.py:286-328 | careful runs without a backup keep catalogue, store and tasks in agreement |
| TaskHistories.CatalogueMeans | pyfog/web.py:776-796 | what agreement means for one image: capturing iff its one capture is pending; ready and not deleted iff published, with exactly the declared, verified artifacts; the image of an active restore or clone can still be deployed |
| TaskHistories.StepMoves | pyfog/tasking.py:174-209 | across any step a task stands still or climbs; only its own reconciliation takes it back, to the queue; only that or a backup takes a cancellation back |
| TaskHistories.CancelRequested | pyfog/tasking.py:360-403 | a request is accepted exactly on a queued or running task nobody cancelled; an unclaimed one is cancelled at once and frees its host, a claimed one is marked, an image being captured is failed, each is logged as what it is, and no other row changes |
| TaskHistories.CancelledNeverPublishes | pyfog/api.py:829-835 | no request of a task whose cancellation was asked for publishes anything |
| TaskHistories.CancellationDominates | pyfog/tasking.py:634-640 | from a cancellation request until a reconciliation or a backup, no run takes the task to succeeded or failed or publishes for it; a cancelled task stays cancelled |
| TaskHistories.StepMeasure | pyfog/tasking.py:112-122 | each status change climbs the rank unless the step reopens the task, which costs five; a new attempt always takes the task from the queue |
| TaskHistories.BoundedHistory | pyfog/tasking.py:453-483 | over any run a task changes status at most 5 * (reconciliations + 1) times and has at most reconciliations + 1 attempts |
| TaskHistories.NumbersAreExact | pyfog/tasking.py:541-549 | the numbers used by a task's attempts are exactly 1 to n |
| TaskHistories.NumbersAscend | pyfog/models.py:251 | and each is used once |
| TaskHistories.RunEvolves | pyfog/tasking.py:597-649 | along any run rows stay, the log only grows, and phase rank, bytes, known total and sequence of an attempt never decrease |
| TaskHistories.FinishedForever | pyfog/tasking.py:326-328 | a finished attempt never revives: no run extends its lease or un-finishes it, so once elapsed it is never honoured again |
| TaskHistories.FinishedIsSilent | pyfog/tasking.py:608-613 | every report on a finished attempt is refused |
| TaskHistories.SequencesNeverRepeat | pyfog/models.py:282 | on every run the events of an attempt have strictly increasing sequence numbers, at most its high-water mark |
| TaskHistories.LateProgressIsIgnored | pyfog/tasking.py:672-687 | a progress report at or below the high-water mark changes nothing; it is answered as a repeat if and only if its phase may be reported and nothing else was logged under its number, else as a conflict |
| TaskHistories.ExactReplay | pyfog/tasking.py:672-687 | repeating an accepted report changes nothing and is answered as a repeat if and only if squeezing, cutting and redacting left its message alone, else as a conflict |
| TaskHistories.UntidyReplayConflicts | pyfog/tasking.py:672-687 | so the repetition of an accepted report whose message has a leading, doubled or unusual blank is always answered as a conflict |
| Messages.StoredIsTidy | pyfog/tasking.py:212-226 | whatever is sent, the stored message has single plain blanks, none in front, through both redactions |
| Messages.UntidyIsChanged | pyfog/tasking.py:212-226 | a message with a leading, doubled or unusual blank is never stored as it was sent |
| Messages.PlainIsKept | pyfog/tasking.py:212-226 | a tidy message of at most 500 characters, with no blank at its end and nothing credential-shaped in it, is |
| Messages.PlainIsSqueezed | pyfog/tasking.py:212-226 | with nothing credential-shaped in it, what is stored is the message with its blanks squeezed, up to the 500th character; squeezing loses no other character |
| Redaction.NothingLeaks | pyfog/tasking.py:212-226 | of any message: in what is stored no token follows a bearer word, and every value behind token, password, secret or clave with a colon or equals sign is the placeholder and nothing more |
| Redaction.KeysKeepBearersOut | pyfog/tasking.py:215-225 | the second redaction brings back no bearer token that the first removed |
| TaskZombies.ManyAgentsAtOnce | pyfog/tasking.py:313-320 | with the query as written, for every n some run in time order and without a backup ends with n + 1 agents holding honoured capabilities for one task at one moment |
| TaskZombies.CatalogueCanBreak | pyfog/api.py:761-806 | with the query as written, some such run ends with a publication whose image still claims to be capturing |
| TaskZombies.BackupCanBreak | scripts/backup_server.py:353-402 | create, claim, recover a backup: a run whose last step breaks the agreement, because the image goes on capturing |
| TaskZombies.HonestRepeatConflicts | pyfog/tasking.py:672-687 | create, claim, report a message with a doubled blank: accepted, and a conflict when sent again |
| Coordinator.ExpireEachIsExpire | pyfog/tasking.py:309-357 | marking the queried list of attempts one after the other is the row-by-row expiry the theorems are about |
| Coordinator.Coordinator.TransitionTask | pyfog/tasking.py:174-209 | refuses what the table forbids without a change; an accepted one climbs the rank unless it reopens a task, and a final status releases host and slot |
| Coordinator.Coordinator.ExpireStaleTasks | pyfog/tasking.py:309-357 | query loop and marking loop: the new state is the specified expiry and the result counts the attempts selected |
| Coordinator.Coordinator.TouchAttempt | pyfog/tasking.py:597-649 | in-place heartbeat: new rows or refusal exactly as specified |
| Coordinator.Coordinator.RecordProgressOf | pyfog/tasking.py:652-710 | repeat, late report, refusal or recorded event exactly as specified, with nothing changed unless recorded |
| Coordinator.Coordinator.RequestCancellation | pyfog/tasking.py:360-403 | in-place cancellation request, all branches |
| Coordinator.Coordinator.AcknowledgeCancellation | pyfog/tasking.py:406-450 | in-place acknowledgement, rolled back whole when the transition is refused |
| Coordinator.Coordinator.ReconcileTask | pyfog/web.py:1452-1494 | row, image, event and staging of a reconciliation |
| Coordinator.Coordinator.RegisterImage | pyfog/web.py:644-670 | a new draft row, or a refused form and no change |
| Coordinator.Coordinator.RequestCapture | pyfog/web.py:834-1000 | creation of a capture on a draft or new image, with every refusal |
| Coordinator.Coordinator.RequestDeployment | pyfog/web.py:1053-1257 | creation of a restore or clone, with every refusal |
| Coordinator.Coordinator.FindClaimable | pyfog/tasking.py:520-526 | the loop finds the oldest approved task of the host |
| Coordinator.Coordinator.ClaimTask | pyfog/tasking.py:486-594 | the expiry is committed even when the claim finds nothing to hand out |
| Coordinator.Coordinator.UploadTaskArtifact | pyfog/api.py:515-569 | store first, heartbeat second; a refused heartbeat leaves the bytes |
| Coordinator.Coordinator.FailAgentTask | pyfog/api.py:574-612 | in-place failure, rolled back whole when the transition is refused |
| Coordinator.Coordinator.FinishRestoreTask | pyfog/api.py:651-713 | verification and success of a restore, or nothing at all |
| Coordinator.Coordinator.FinishCaptureTask | pyfog/api.py:724-825 | manifest check, progress commit, publication and completion of a capture, with every failing branch |
| Coordinator.Coordinator.DeleteImageRow | pyfog/web.py:763-808 | deletion guard, publication removal and row update |
| Coordinator.Coordinator.InvalidateAfterRestore | scripts/backup_server.py:353-402 | the two updates as loops over rows, the second reading what the first wrote |
| Coordinator.Coordinator.Handle | pyfog/api.py:159-192 | any request is exactly one step of the transition relation, and the object keeps the joint invariant |
| Backup.VerifyCatalog | scripts/backup_server.py:264-331 | accepts exactly when every row and every publication directory correspond and every ready image's manifest names it, has the recorded digest and verifies its files |
| Backup.AgreementIsVerified | scripts/backup_server.py:286-328 | a catalogue that agrees with its store passes, and one that passes publishes exactly its usable images |
| Backup.PassingMeans | scripts/backup_server.py:286-328 | what a pass tells of every usable image: published, named by a manifest with the recorded digest, every declared file there with length, digest and blocks; nothing else is published |
| Backup.PassingIsUnaltered | scripts/backup_server.py:306-319 | a row and a directory that pass under a recorded manifest digest hold the manifest text and the files that passed before, up to a digest collision |
| Backup.CarefulBackupsVerify | scripts/backup_server.py:334-341 | a backup taken after any careful run verifies |
| Fencing.LeaseTable.AcquireLease | pyfog/coordinator.py:54-108 | in-place acquisition: refusals, passive answer, takeover with new term and token, own re-acquisition without |
| Fencing.LeaseTable.RenewLease | pyfog/coordinator.py:111-134 | in-place renewal, in the source's order of checks |
| Fencing.LeaseTable.AssertFenced | pyfog/coordinator.py:137-155 | passes exactly for the holder and token of a row whose expiry is still ahead |
| Fencing.LeaseTable.ReleaseLease | pyfog/coordinator.py:158-176 | in-place release: the token moves on and nobody holds the row |
| Fencing.RunIsSound | pyfog/coordinator.py:54-176 | for arbitrary callers, clocks and lease values: term equals token, tokens never decrease, each token belongs to one holder forever, and fenced mutations are logged with non-decreasing tokens |
| Fencing.UsableWhileCurrent | pyfog/coordinator.py:137-155 | an issued lease can pass the fence at some clock if and only if the row still carries its token |
| Fencing.AcquireGrants | pyfog/coordinator.py:54-108 | an acquisition is granted if and only if holder and duration are valid and the row is free, elapsed or the holder's own; refused, it changes nothing |
| Fencing.GrantedUntil | pyfog/coordinator.py:89-108 | a lease granted at a time for a duration carries that end, and it and every issued copy with its token passes the fence exactly before it |
| Fencing.FenceKeepsTime | pyfog/coordinator.py:137-155 | on every run an issued lease passes the fence at a clock if and only if its token is current and the clock is before the end of the last grant, or the release, of that token |
| Fencing.MutationsInTime | pyfog/coordinator.py:137-155 | so a mutation goes through and is logged exactly in that time |
| Fencing.TakeoverIsLate | pyfog/coordinator.py:95-108 | when another holder takes over at a clock, no earlier lease passes the fence at that clock even before the step |
| Fencing.ReleasedIsFree | pyfog/coordinator.py:158-176 | a released row is granted to any valid holder exactly at clocks from the release on |
| Fencing.SupersededForever | pyfog/coordinator.py:137-176 | once another holder acquires, or the holder releases through any lease it holds, renewed or not, no earlier lease ever passes the fence, renews or releases again, on any later run and at any clock |
| Relay.RelayCache.Evict | pyfog/relay.py:259-288 | removes exactly the shortest prefix, oldest access first, of the entries nobody leases that makes the cache fit, all of them when nothing less does, after purging elapsed leases |
| Relay.RelayCache.PurgeExpired | pyfog/relay.py:251-257 | the nested loops keep exactly the leases that expire later than now |
| Relay.RelayCache.PublishFile | pyfog/relay.py:118-145 | publishes exactly content of the given size and digest, then makes room |
| Relay.RelayCache.CompleteBlockTransfer | pyfog/relay.py:173-199 | exposes exactly a complete transfer with the expected digest, then makes room |
| Relay.RelayCache.AcquireEntry | pyfog/relay.py:224-240 | grants exactly on a present entry for an allowed time, and then the entry is pinned for that long; else it changes nothing |
| Relay.RelayCache.ReleaseEntry | pyfog/relay.py:242-249 | gives back that lease and no other |
| Relay.EvictionBounds | pyfog/relay.py:259-288 | leased entries stay, and afterwards the total is at most the limit or exactly the leased bytes |
| Relay.EvictionIsMinimal | pyfog/relay.py:276-288 | a cache that fits loses nothing, and the last entry removed was needed |
| Relay.NewestSurvives | pyfog/relay.py:275-288 | the entry accessed last is not removed when it fits beside what is leased |
| Relay.PinnedEntriesStay | pyfog/relay.py:118-288 | over any run of insertions, evictions, reads, acquisitions and releases, an entry stays while a lease on it is neither given back nor elapsed, and every entry is the content its digest names |
| Relay.AcquirePins | pyfog/relay.py:224-240 | an acquisition gives a new pin that lasts as long as asked; every other running pin stays as it was and elapsed ones go |
| Relay.GrantedStays | pyfog/relay.py:224-288 | after a granted acquisition the entry stays, through any events before the time asked for is over other than giving back that very pin |
| Relay.ReleaseUnpins | pyfog/relay.py:242-249 | giving back a pin ends it and no other |
| Relay.EvictionSparesPins | pyfog/relay.py:251-288 | an eviction takes only entries without a running pin, and while the cache is too big it takes all of those |
| Relay.ReadingRefreshes | pyfog/relay.py:275-288 | a read entry is the newest: the next eviction keeps it when it fits beside what is leased |
| Relay.InsertionBounds | pyfog/relay.py:118-145 | the bound after an insertion, and the survival of the entry just inserted |
| Multicast.ReliableMulticastSession.Take | pyfog/distribution.py:254-262 | in-place receipt of a piece: unknown receiver, bad piece, duplicate or new |
| Multicast.ReliableMulticastSession.AskRepair | pyfog/distribution.py:270-283 | a request for the first missing indices, nothing when complete, or the error |
| Multicast.ReliableMulticastSession.Validate | pyfog/distribution.py:285-301 | accepts and counts exactly an authentic request of this session for pieces still missing |
| Multicast.AskedIsValid | pyfog/distribution.py:270-301 | a request just asked is accepted and only counted |
| Multicast.RepairDecision | pyfog/distribution.py:285-301 | a repair request is honoured if and only if session, receiver and tag are right and every piece is one that receiver lacks; refused, it changes nothing, and honoured it is counted once |
| Multicast.TamperedIsRefused | pyfog/distribution.py:285-301 | a request altered under way is refused, at any later state, or two inputs have one tag |
| Multicast.AskingDecision | pyfog/distribution.py:270-283 | who gets a request: a known receiver that lacks something, within the limit and with a name requests can carry |
| Multicast.ReceiveKeepsSession | pyfog/distribution.py:254-262 | a piece reaches one receiver only, is new exactly when admissible and unseen, and keeps everybody's byte counts equal to the sizes received |
| Multicast.CompleteIffAllBytes | pyfog/distribution.py:264-268 | received and missing partition the blocks, and a receiver is complete if and only if its byte count is the artifact's size |
| Multicast.RequestLifetime | pyfog/distribution.py:270-301 | over any run a request stays valid until one of its pieces arrives, and not longer |
| Multicast.RoundsRepair | pyfog/distribution.py:270-301 | a round asks, validates and sends; after n lossless rounds exactly the first n * limit missing pieces have arrived and no other receiver has changed |
| Multicast.RepairFinishes | pyfog/distribution.py:270-305 | repair is complete after n lossless rounds of asking, validating and sending if and only if n is at least the number of missing pieces divided by the limit, rounded up |
| Layout.DisjointIsCover | pyfog/image_manifest.py:354-373 | partitions are pairwise disjoint if and only if no sector is covered twice |
| Layout.ServerScan | pyfog/image_manifest.py:354-373 | the server's sort-and-scan decides range and pairwise disjointness |
| Layout.AgentScan | scripts/run_image_task.py:1253-1290 | the restore agent's collect, sort and scan decides the very same |
| Layout.MbrScan | scripts/run_image_task.py:1894-1912 | the capture agent's neighbour check decides disjointness, with an upper bound only |
| Layout.CompareMbrScans | scripts/run_image_task.py:1894-1912 | both scans on one table: the capture agent and the server disagree exactly when a partition starts before the first safe sector, and then only the agent accepts |
| Layout.ValidateTargetExpansion | scripts/run_image_task.py:2467-2495 | growing is allowed exactly on a larger GPT target whose first root is ext4 and last, without swap |
| Layout.ExpansionKeepsLayout | scripts/run_image_task.py:2505-2530 | growing the root to a last usable sector at or beyond the old one keeps a valid layout valid, changes no other partition and loses no sector |
| Hooks.RunPostDeployHooks | pyfog/hooks.py:105-195 | the loops over steps, retries and compensations, on a mutable ledger and runner, do what the specification of a run says |
| Hooks.TryCounts | pyfog/hooks.py:132-157 | a step is called at least once, at most retries + 1 times, exactly that often when it fails, and succeeds at most once |
| Hooks.AtMostOnce | pyfog/hooks.py:126-170 | over any number of runs of any plans sharing a ledger, every key has at most one successful call, and the ledger knows it |
| Hooks.CallsPerRun | pyfog/hooks.py:126-157 | no run calls a step more often than its retries allow, nor one the ledger knows |
| Hooks.RollBackReverses | pyfog/hooks.py:171-186 | exactly the completed steps that declare a compensation are compensated, each once, last to first |
| Hooks.FailedRun | pyfog/hooks.py:120-195 | a failed run: one fresh step used up its calls, no later step was called, nothing was compensated before that, then exactly the fresh steps before it that declare a compensation were compensated, each once, in reverse, and all of them stay in the ledger |
| Hooks.CompletedRun | pyfog/hooks.py:120-195 | a run that completes compensated nothing, and every step of its plan is in the ledger |
| Hooks.CompensatedNotRepeated | pyfog/hooks.py:159-179 | the price of that ledger: a completed step, compensated or not, is never called again by a later run |
| Credentials.CredentialStore.IssueCredential | pyfog/agent_credentials.py:80-113 | import, tightening loop and insertion, in place |
| Credentials.CredentialStore.RevokeCredentials | pyfog/agent_credentials.py:116-131 | the revocation loop, in place |
| Credentials.IssueRotates | pyfog/agent_credentials.py:80-113 | after issuing, no other credential of the host is usable from the end of the grace period on, until then each is as usable as before, none gets a deadline past its expiry, the host row carries the new token, and other hosts are untouched |
| Credentials.IssueDecides | pyfog/agent_credentials.py:61-91 | issuing needs a known host and a token nobody has, not even as a legacy one; refused, it changes nothing |
| Credentials.LegacyRotates | pyfog/agent_credentials.py:61-113 | the first rotation gives a legacy token a row, usable until its expiry or the end of grace |
| Credentials.RunRotates | pyfog/agent_credentials.py:61-131 | along any run in time order deadlines only tighten and at most the newest active credential of a host has none; no token has two rows |
| Credentials.OldCredentialsDie | pyfog/agent_credentials.py:61-113 | every credential older than an issued one, an imported legacy token included, is unusable from the end of the grace period on, whatever follows |
| Credentials.RevokedForever | pyfog/agent_credentials.py:116-131 | revocation leaves nothing usable, and nothing later revives it |
| Credentials.RevokedTokensStayDead | pyfog/agent_credentials.py:116-131 | a revoked host starts over: no token it had, in a row or as a legacy one, is ever usable for it again unless that very token is issued anew |
| DiskMapping.PlanMultiDiskRestore | pyfog/disk_mapping.py:78-132 | plans exactly when counts agree, identities are usable and distinct and every source has a fitting target; each entry then writes its source to the target of its identity, with that target's device path and size, the source's size and the common sector size, and is safe to carry out |
| DiskMapping.PlanIsBijection | pyfog/disk_mapping.py:92-132 | an accepted plan writes every target disk exactly once, field by field the disk of that identity |
| DiskMapping.PathsWrittenOnce | pyfog/disk_mapping.py:92-132 | when targets have distinct device paths, each path is written by exactly one entry |
| DiskMapping.SameIdentity | pyfog/disk_mapping.py:13-29 | without identities of their own, disks are one disk exactly when their WWNs agree, or their serials where neither has a WWN |
| DiskMapping.OrderDoesNotMatter | pyfog/disk_mapping.py:92-132 | the plan does not depend on the order in which targets were detected |

## Left out

- TaskHistories.CatalogueAgrees: excludes runs with a recovered backup; `TaskRuns.StepCatalogue` says exactly which steps,
  that one included, break the agreement.
- TaskHistories.CancellationDominates: excludes recovered backups, because invalidation clears cancellation marks.
- Relay.NewestSurvives: asks that no other entry was accessed at the same instant, because the file system decides the
  order of equally old entries.
- Relay.RelayCache.Evict: every file chosen for removal can be removed.
- Rows as mutable objects: `Coordinator` keeps rows as values in sequences that its methods reassign, so aliasing between
  two references to one row is not captured; a row's index stands for its identifier.
- Human-readable messages other than those of progress events, failure codes, metrics, audit records,
  `updated_at`-style timestamps and the first-start times of tasks and attempts: nothing in the modelled code branches on
  them, except that a started restore appends a warning to its failure reason.
- HTTP, forms, permissions, CSRF and templates: a request arrives as its operation with the outcome of those checks as
  inputs (`valid`, `credential`, `capable`); capability tables are one such input.
- Free disk space is an input (`room`); paths are opaque names, so path safety, symbolic links, `fsync` and file modes
  are not modelled.
- The `manifest.json` file written beside the artifacts before a publication is checked; its bytes count against no
  limit here.
- How a manifest is written as canonical JSON: the text is a field of the parsed manifest, and its digest is recorded and
  compared. The foreign-key check and the UUID form of image identifiers in `verify_catalog` have no counterpart.
- A request is one atomic step: crashes between file system and database, SQL isolation and lost races on unique columns
  (`IntegrityError`) are not modelled. A request that expires stale leases first is two steps.
- The coordinator fence inside agent requests: `Fencing` is proved on its own and not composed with the task steps.
- Identifiers and tokens are numbers handed in or counted, not random values; a task capability is the attempt it was
  issued for.
- Manifest parsing beyond block layouts, unique paths, sizes and the fields the store and the catalogue act on.
- Block writes through the store (`ArtifactStore.write_block`), staging status and orphan inspection.
- Which streams an image has: boot code, roles and the one artifact that both members of a RAID 1 root share. The image
  pipeline takes one stream for each distinct path.
- Downloads without a block index and the agent's progress reports; the restore agent resets its byte count, which the
  server refuses, so no conformance of that agent is claimed.
- Relay digests are any text, not 64 hexadecimal digits, and `read_range`, descriptors and candidates are absent.
- The choice of a distribution strategy and its benchmarks.
- Multicast secrets and HMAC are one arbitrary tag function that is never empty.
- Partition roles, filesystems, GUIDs and UUIDs beyond what overlap and expansion look at; the device tools that carry
  out an expansion.
- Hook payloads, secrets, timeouts and response bodies; an error and an unsuccessful answer are one outcome.
- `current_credential` and `credential_for_token` lookups; a token is its hash.
- Error texts of the disk planner: any refusal is one outcome, and identifiers are taken without surrounding blanks.

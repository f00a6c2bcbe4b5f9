# The registry, its files and its logs

This project models the stateful parts of a device-sharing mesh and proves what they promise:

- the registry (`src/registry_runtime.rs`): leases on devices with a waiting queue, the fences that tie a
  device to the job writing to it, the job maps, and the files of both, over all runs with failed saves and restarts;
- the snapshot files the registry is saved in, crash by crash;
- artifact upload and download over a wire that loses calls and answers;
- the event journal (`src/dashboard/event_log.rs`) and its consumers;
- the audit log (`src/dashboard/audit.rs`): frames, torn tails, rotation, deletion and retention, with a crash
  at every step and inside every frame;
- three smaller cores: the out-of-order chunk store and the agent's job table (`src/lib.rs`), and the binary
  segment header (`src/registry_event_store/codec.rs`).

Code that changes its state in place is a class here, and its methods are proved against functions on values;
the theorems about whole runs are about those functions. What the functions themselves compute is told a second
time, in the modules called `...Answers` and in `RegistryHosts`, `EventReports` and `AuditReading`, without naming
them: when each request is granted and when it is refused, what it changes and what it leaves alone, in terms of
the maps, queues, events and bytes it finds. Every lock-held critical section is one atomic step.
The registry's two files and the artifact index are kept as the four snapshot files each of them consists of,
and every save says after which of the eight durable stages of a write it stopped. A crash is a save that
stopped followed by a restart; a start saves only what it changed and may itself stop at a save. In the audit
log a crash is any prefix of the steps taken on the directory, the last append cut at any byte.

A save is *careful* unless it is stopped just after emptying `.next` while the snapshot it replaces was only in
there, which takes an earlier save of the same file that had stopped half way (`Persistence.Harmless`, which
also wants a 64-bit generation to be left, and `CarefulAfterCompleted`). That single stop loses the snapshot,
and no other does (`SnapshotFiles.LosesExactly`).
What is promised of memory within one life of the process is proved wherever saves stop. What is promised
across restarts is proved over all runs whose saves are careful, and `RegistryRollBacks` and
`ArtifactStore.UploadIsForgotten` give runs from an empty registry in which one careless save breaks it.

What is given from outside is a parameter: hashes and JSON are functions (with decode-of-encode and digest
length where a proof needs them), a clock reading belongs to a step, the visiting order of a hash map is an
explicit sequence, and stopped saves, lost calls and broken files are choices of the environment over which
the theorems quantify.

Five findings are worth a reader's attention.

- A snapshot write is not atomic when the snapshot it replaces sits in `.next`, which happens after one crash
  at the wrong place (`AtomicExactlyWhenSheltered` and `LosesExactly` give the exact condition). A start does
  not save what it found, so the snapshot stays there, and a second crash brings an older one back: a cancelled
  job is handed out again (`WithdrawnIsHandedOut`), a running job loses its device (`AcknowledgementIsLost`),
  an uploaded artifact is forgotten (`UploadIsForgotten`).
- After retention has deleted something, the audit log's current segment is numbered below the new ones, so no
  rotation succeeds any more: records of one more day are taken as far as they fit, and the first one of
  another day makes the store unavailable (`NextDayAfterRetention`); a deletion before that repairs it (`Delete`).
- A crash while the audit log is opening loses the report of a torn tail exactly if it comes after the tail was
  cut off and before the first byte of the report was written; nothing else is lost (`AuditStore.Open`,
  `ReopenAfterOpening`, and `TornFirstFrame` for an instance).
- The same submission sent again is refused once its lease has lapsed, although its job is remembered
  (`LapsedLeaseRefusesRepetition`; `Resubmission` has the exact condition).
- An expired lease can be replaced by one that is expired as well, if the waiter had asked for a zero lifetime
  (`ExpireClears`).

The files: `Lease*` (the lease book), `Registry*` with `HeartbeatAnswers` and `EventReports`, `Snapshot*`,
`Persistence`, `Artifact*`, `EventJournal*`, `Audit*`, `ChunkStore`, `AgentJobs`, `SegmentHeader`, and `Common` and
`AppleProtocol` for shared vocabulary. `dafny verify dfyconfig.toml` checks all of it.

## Model

| member | source | states |
|---|---|---|
| Leases.ServeInv | src/registry_runtime.rs:986-1154 | every lease request keeps the book's invariant (leases numbered and matching the grants made, fences and deferrals only on leased and fenced devices, nobody waits for a free device or for its own, queue entries distinct); a granted lease is the one the book holds for that peer, so the final lookup cannot fail |
| Leases.LeaseIdsUnique | src/registry_runtime.rs:192-206 | two devices never share a lease id |
| Leases.InsertInv | src/registry_runtime.rs:192-206 | issuing a lease on a free device that nobody waits for keeps the invariant |
| Leases.ReleaseNowInv | src/registry_runtime.rs:176-190 | releasing a device and promoting its earliest waiter keeps the invariant |
| Leases.ReleaseInv | src/registry_runtime.rs:154-160 | a release, deferred or carried out, keeps the invariant |
| Leases.ForceReleaseInv | src/registry_runtime.rs:162-167 | a forced release drops the fence and its deferrals and keeps the invariant |
| Leases.DetachInventoryInv | src/registry_runtime.rs:169-174 | an inventory detach keeps the invariant |
| Leases.ReleaseAllInv | src/registry_runtime.rs:141-152 | releasing any sequence of devices keeps the invariant |
| Leases.ReleaseAllMeaning | src/registry_runtime.rs:141-152 | releasing a set of devices in any order means: fenced ones are deferred, each other one goes to its earliest waiter if it has one, the rest of the queue keeps its order |
| Leases.ExpiryOrderIrrelevant | src/registry_runtime.rs:141-152 | two visiting orders of the hash map end with the same queue, fences, deferrals, holders and expiry times |
| Leases.ExpireClears | src/registry_runtime.rs:141-152 | after expiry unexpired and fenced leases are untouched, and an unfenced device still holds an expired lease exactly when its promoted waiter asked for a zero lifetime |
| LeaseFairness.ReleaseNowFair | src/registry_runtime.rs:176-190 | a promotion never lets a later waiter of the device overtake an earlier one |
| LeaseFairness.QueueFair | src/registry_runtime.rs:1010-1040 | queueing never overtakes |
| LeaseFairness.DisconnectFair | src/registry_runtime.rs:1103-1120 | nor does a disconnect of anyone but the earlier waiter before its grant |
| LeaseFairness.ServeFair | src/registry_runtime.rs:986-1154 | no lease request lets a later waiter of a device be granted it before an earlier one |
| LeaseBookStore.LeaseBook.Insert | src/registry_runtime.rs:192-206 | in place: the new lease, its id and nothing else |
| LeaseBookStore.LeaseBook.ReleaseDeviceNow | src/registry_runtime.rs:176-190 | in place: what releasing and promoting means |
| LeaseBookStore.LeaseBook.ReleaseDevice | src/registry_runtime.rs:154-160 | in place: deferred on a fenced device, carried out otherwise |
| LeaseBookStore.LeaseBook.ForceReleaseDevice | src/registry_runtime.rs:162-167 | in place: fence and deferrals dropped, device released |
| LeaseBookStore.LeaseBook.DetachDevice | src/registry_runtime.rs:169-174 | in place: deferred detach on a fenced device, then release |
| LeaseBookStore.LeaseBook.Expire | src/registry_runtime.rs:141-152 | the loop over the hash map is a release of exactly the expired devices in some order |
| LeaseBookStore.LeaseBook.FindLease | src/registry_runtime.rs:1041-1084 | the search finds the device held under that id by that client if and only if there is one |
| LeaseBookStore.LeaseBook.LeaveQueue | src/registry_runtime.rs:1103-1107 | exactly the client's entries leave the queue, the others keep their order |
| LeaseBookStore.LeaseBook.Serve | src/registry_runtime.rs:986-1154 | in place: each request is answered, and changes the book, as its kind demands (`LeaseAnswers.Answers`), and the invariant is kept |
| LeaseAnswers.ServeAnswers | src/registry_runtime.rs:986-1154 | each request's answer and effect, told of the leases, the queue and the fences: an acquisition or a queue request on a free device issues a lease under a new number that runs for the asked time; a renewal changes that one lease's end; a release or revocation is answered as such exactly if the peer holds a lease so numbered, and then its device is passed on to its earliest waiter, or free if nobody waited, or, if fenced, released when its job ends; a disconnect ends the peer's waiting and passes on what it holds; an agent's detach drops the fence and passes the device on; validation tells whether the lease is held; whatever is refused changes nothing |
| LeaseAnswers.ReleaseGivesUp | src/registry_runtime.rs:154-190 | a device that is given up goes to the earliest of those who wait for it, under the next lease number and for the time it asked for, or is free; on a fenced device that is put off |
| LeaseAnswers.DeadNumber | src/registry_runtime.rs:176-206 | a lease number that was given up names no lease any more, and numbers to come are higher |
| RegistryInvariant.StepAdvances | src/registry_runtime.rs:346-844 | each critical section other than a start moves no fence and no fenced lease except those it may end, grows the job maps, and adds a fence only for a pending job on the lease its request names |
| RegistryInvariant.RestoreKeeps | src/registry_runtime.rs:230-269 | restoring a writer moves no other fence |
| RegistryInvariant.UnfenceAllKeeps | src/registry_runtime.rs:208-228 | dropping fences moves no fence outside the dropped set |
| RegistryInvariant.ServeKeeps | src/registry_runtime.rs:986-1154 | a lease request moves no fence and no fenced lease, except an agent's detach of its device |
| RegistryRuns.LifeStep | src/registry_runtime.rs:346-844 | within one life of the process every critical section keeps the invariant of memory, wherever its saves stop |
| RegistryRuns.StepInv | src/registry_runtime.rs:346-844 | every critical section and every start keeps the invariant of the job maps, the lease book and what their files hold, if its saves are careful: none is stopped just after emptying .next where the snapshot it replaces was only in there |
| RegistryRuns.RunInv | src/registry_runtime.rs:346-844 | the invariant holds after every run, starts that fail half way included, wherever saves stop as long as they are careful |
| RegistryRuns.NewNodeInv | src/registry_runtime.rs:123-136 | an empty registry satisfies the invariant |
| RegistryRuns.RestartInv | src/registry_runtime/lifecycle.rs:220-248 | a start, which reads both files and writes only what it changed, re-establishes the invariant, or fails at a save and leaves files that keep it |
| RegistryRuns.RestartFences | src/registry_runtime/lifecycle.rs:240-248 | after a start that came up every fence names an acknowledged pending job and that job's own lease |
| RegistryRuns.FenceStable | src/registry_runtime.rs:154-174 | over any run without a start, a terminal report of its job, an agent detach of the device, or the roll-back of a heartbeat that could not save the job maps (512-518) while nobody has acknowledged the job, the fence names the same job and the lease keeps id and client, which the job's request names; whatever becomes of the saves |
| RegistryRuns.AnsweredReportIsDurable | src/registry_runtime.rs:743-819 | an answered progress report leaves fence, lease and acknowledgement on disk as well as in memory, given careful saves so far |
| RegistryRuns.DurableStable | src/registry_runtime.rs:208-269 | from then on, over every run with careful saves, the job keeps its device through every release, expiry, detach and restart until its terminal report or an agent detach |
| RegistryRuns.NeverHandedOutAgain | src/registry_runtime.rs:434-510 | a job that was acknowledged, rejected, withdrawn or finished, in memory and on disk, is never dispatched again, across restarts, over every run with careful saves |
| RegistryRuns.ReportCloses | src/registry_runtime.rs:743-819 | an answered report closes the job in memory and on disk |
| RegistryRuns.CancellationCloses | src/registry_runtime.rs:820-844 | an answered cancellation before dispatch closes the job in memory and on disk |
| RegistryRuns.RejectionCloses | src/registry_runtime.rs:492-520 | a rejection that was saved closes the job in memory and on disk and takes it out of the pending map |
| RegistryRuns.PendingOnce | src/registry_runtime.rs:672-742 | within one life of the process a job enters the pending map at most once, whatever becomes of the saves |
| RegistryRuns.LeftForGood | src/registry_runtime.rs:672-742 | a job that has left the pending map in memory and on disk never enters it again, across restarts, over every run with careful saves |
| RegistryRuns.AcceptanceIsRemembered | src/registry_runtime.rs:672-742 | an accepted submission is remembered in memory and on disk |
| RegistrySubmissions.InForceExactly | src/registry_runtime.rs:643-671 | what the lease check finds after expiring leases, told before it: the lease is active, held by the peer, and unexpired or fenced |
| RegistrySubmissions.AdmitTouchesNoJob | src/registry_runtime.rs:643-671 | the lease check changes no job map and lets a submission through exactly when it does not refuse it |
| RegistrySubmissions.Resubmission | src/registry_runtime.rs:643-742 | over every run with careful saves, restarts included: a submission under a remembered key passes the lease check if and only if its operation mutates no device, or the lease file can be saved and the named lease is active on the device and held by the peer; then the same submission gets the same job and a different one is a conflict, and neither section changes a job map |
| RegistrySubmissions.IdenticalRepetition | src/registry_runtime.rs:643-671 | the answer of the lease check to an identical repetition, from the state before it |
| RegistrySubmissions.LapsedLeaseRefusesRepetition | src/registry_runtime.rs:643-671 | a run from an empty registry to a job submitted and remembered in memory and on disk, whose identical repetition is refused because its lease has lapsed; the check takes the lease away |
| RegistryRuns.AnsweredIsTakenIn | src/registry_runtime.rs:743-819 | after an answered report there stand behind the stored events of the job the new ones of the batch, unchanged and in order and nothing else, in memory and on disk, given careful saves so far |
| RegistryRuns.TakenInRun | src/registry_runtime.rs:743-819 | every event stored then stays stored as it is, and an ended job stays ended, over every run with careful saves |
| RegistryRuns.RedeliveryChangesNothing | src/registry_runtime.rs:743-819 | delivering it again changes no stored event and no job map, and if terminal not the lease book either |
| RegistryRuns.ReconcileSettles | src/registry_runtime.rs:208-228 | reconciliation drops exactly the fences that name no acknowledged pending job; a second one changes nothing |
| RegistryRollBacks.WithdrawnIsReached | src/registry_runtime.rs:820-844 | a run from an empty registry, agent included, to a job withdrawn in memory and on disk whose snapshot is only in .next |
| RegistryRollBacks.WithdrawnIsHandedOut | src/registry_runtime.rs:1537-1541 | from there one careless save, a restart and the next heartbeat: the older snapshot is back and the withdrawn job is handed out |
| RegistryRollBacks.OnlyInNextIsReached | src/registry_runtime.rs:743-819 | a run from an empty registry, through inventory, lease, submission, hand-out, report and restart, to a running job whose acknowledgement is only in .next |
| RegistryRollBacks.AcknowledgementIsLost | src/registry_runtime.rs:1537-1541 | from there one careless save and a restart take the device away from the job, although nobody ended it |
| RegistryFairness.StepFair | src/registry_runtime.rs:346-844 | no critical section of the registry lets a later waiter overtake |
| RegistryFairness.RunFair | src/registry_runtime.rs:176-190 | nor does any run without a start, unless the earlier waiter disconnects, whatever becomes of the saves |
| RegistryFairness.FirstComeFirstServed | src/registry_runtime.rs:996-1040 | if A is queued for a device and B not before it, every later grant of the device to B within this life of the process comes after one to A |
| RegistryFairness.AnsweredQueueIsOnDisk | src/registry_runtime.rs:951-975 | an answered lease request has left the lease book of memory on disk, given careful saves so far |
| RegistryFairness.FirstComeFirstServedAcrossRestarts | src/registry_runtime/lifecycle.rs:220-248 | from a queue that is on disk the same holds over every run with careful saves, across any number of restarts |
| RegistryServer.Registry.Start | src/registry_runtime/lifecycle.rs:220-248 | starting is the restart step: expiry and saving, then reconciliation, then saving where it changed anything; it fails where a save fails |
| RegistryServer.Registry.ReconcileState | src/registry_runtime.rs:208-228 | the loops drop exactly the orphaned fences, in some order |
| RegistryServer.Registry.RestoreWriter | src/registry_runtime.rs:230-269 | the fence is restored exactly when job, lease and client still match |
| HeartbeatAnswers.InventoryAnswers | src/registry_runtime.rs:347-404 | an inventory is refused exactly from a peer that is no agent, or where another agent has reported the host or one of its devices; otherwise host and connected devices are the peer's, what it no longer reports is released and, unless a job writes to it, forgotten |
| HeartbeatAnswers.ExpiryLapses | src/registry_runtime.rs:141-152 | expiry gives up exactly the leases whose time is over: fenced ones when their jobs end, the others at once, each to its earliest waiter |
| HeartbeatAnswers.DropsFences | src/registry_runtime.rs:208-228 | dropping fences one by one, in any order: the fences go, devices whose release was put off go to their earliest waiters, detached ones are forgotten, and nothing else changes |
| HeartbeatAnswers.DispatchAnswers | src/registry_runtime.rs:434-520 | a heartbeat of a host is handed one of the jobs that wait for it (pending, made for that host, not acknowledged, its device written by no other job), if there is any: without a lease where none is needed, with a grant and a fence where its lease is in force after expiry, and otherwise the job is rejected; where the job maps cannot be saved the hand-out is taken back |
| HeartbeatAnswers.WorkIsForItsHost | src/registry_runtime.rs:434-510 | work is handed to the host it was made for, with exactly the request it is pending with, unacknowledged; a grant comes exactly with requests that change a device and name it and a lease, and names that device, that lease and the client who submitted the job |
| HeartbeatAnswers.IdleExactlyWithoutWork | src/registry_runtime.rs:434-510 | a heartbeat whose saves complete leaves the job maps alone if and only if no job waits for its host; where one waits it is handed out or, its lease lapsed, leaves the pending map |
| RegistryAnswers.AdmitAnswers | src/registry_runtime.rs:643-671 | the lease check lets a submission through exactly if its operation changes no device, or, once expired leases are gone and that is saved, the peer holds the named device under the named lease |
| RegistryAnswers.CreateAnswers | src/registry_runtime.rs:672-742 | a known key is answered from memory; a new one makes a job for a host that has announced all it takes, for the submitting peer, to be reported on by the agent that reported the host, or is refused exactly where there is no such host |
| RegistryAnswers.ProgressAnswers | src/registry_runtime.rs:743-819 | only the job's agent may report; a terminal report stores its new events, ends the job and its fences and carries out what was put off; any other restores the fence exactly where the lease is in force and the device is free or the job's own, stores its new events and acknowledges, and is undone where it cannot be saved |
| RegistryAnswers.CancelAnswers | src/registry_runtime.rs:820-844 | only the client may cancel; a dispatched job is marked and stays pending, any other leaves the pending map with an event that says so |
| RegistryAnswers.LeaseOpAnswers | src/registry_runtime.rs:951-1154 | expired leases are given up first; then the request is answered and changes the book as its kind demands, unless one of the two files cannot be saved; a device that its agent detaches is forgotten |
| RegistryAnswers.ExpireAnswers | src/registry_runtime.rs:405-411 | the second section of a heartbeat gives up what has run out and saves that |
| RegistryAnswers.RestartAnswers | src/registry_runtime/lifecycle.rs:220-248 | a start goes on from the files: expired leases are given up and that is saved, fences of jobs not acknowledged and pending are dropped and if there are any both files are saved; it comes up with no host announced, or stays down where a save fails |
| RegistryAnswers.StepAnswers | src/registry_runtime.rs:346-975 | so for every critical section: what it changes in memory, what it saves, and what it answers |
| RegistryHosts.NewJobHasHost | src/registry_runtime.rs:681-710 | a submission under a new key is refused for want of a host if and only if no announced host has a recent heartbeat, the capability and the device connected; otherwise its job is made for a host that has all three |
| RegistryHosts.EveryJobHasItsHost | src/registry_runtime.rs:681-742 | over every run with careful saves, restarts included: every known job names a host that had announced all that when the job was submitted |
| RegistryHosts.WorkGoesToChosenHost | src/registry_runtime.rs:434-510 | over every such run: whoever is handed a job had announced all it takes when it was submitted |
| RegistryHosts.HostStays | src/registry_runtime.rs:672-742 | a job in memory and on disk keeps its host over every run with careful saves |
| RegistryHosts.OneHostPerJob | src/registry_runtime.rs:434-510 | however often a job is handed out, over every run with careful saves it goes to one host |
| EventReports.AddEventsAdds | src/registry_runtime.rs:775-783 | a report adds, behind what is stored, a subsequence of its batch: every event whose number is new and first in the batch, unchanged and in order, and nothing else |
| EventReports.AddedKeepsDistinct | src/registry_runtime.rs:775-783 | if the stored numbers were distinct they still are |
| RegistryServer.Registry.HeartbeatInventory | src/registry_runtime.rs:347-404 | the first section of a heartbeat is one possible inventory step, and does and answers what `InventoryAnswers` says of one |
| RegistryServer.Registry.HeartbeatExpire | src/registry_runtime.rs:405-411 | the second is one expiry step, and gives up what has run out |
| RegistryServer.Registry.HeartbeatDispatch | src/registry_runtime.rs:434-520 | the third is one dispatch step, its rollback included, and hands out what `DispatchAnswers` says: a job that waits for this very host, if there is one |
| RegistryServer.Registry.HandOutJob | src/registry_runtime.rs:452-500 | handing out a job fences its device and marks it, or rejects it |
| RegistryServer.Registry.AdmitJob | src/registry_runtime.rs:643-671 | the lease check of a submission is one admission step, with the answer that `AdmitAnswers` tells |
| RegistryServer.Registry.CreateJob | src/registry_runtime.rs:672-742 | creating a job is one creation step; the job is for a host that meets the four conditions, and refused exactly where there is none |
| RegistryServer.Registry.StoreEvents | src/registry_runtime.rs:776-784 | the new events of the batch, each the first with its number, are added unchanged and in order, and nothing else |
| RegistryServer.Registry.ReportProgress | src/registry_runtime.rs:743-819 | a report is one progress step, and stores, ends, fences and answers what `ProgressAnswers` says |
| RegistryServer.Registry.FinishJob | src/registry_runtime.rs:788-819 | a terminal report ends the job and its fences |
| RegistryServer.Registry.AcknowledgeJob | src/registry_runtime.rs:755-819 | a first report restores the writer and acknowledges, and is undone if it cannot be saved |
| RegistryServer.Registry.CancelApple | src/registry_runtime.rs:820-844 | a cancellation is one cancel step, with the effect that `CancelAnswers` tells |
| RegistryServer.Registry.HandleLease | src/registry_runtime.rs:951-975 | a lease request is one lease step, answered on the book without expired leases as its kind demands |
| SnapshotFiles.LoadOrdered | src/registry_runtime.rs:1626-1655 | in an ordered directory the loader returns the main file, else the newest of .next and .retired, else .previous |
| SnapshotFiles.LoadsExactly | src/registry_runtime.rs:1626-1655 | in any directory: torn files are an error except .next, and except all of them beside a whole main file; the main file comes first, and without it one of the highest generation |
| SnapshotFiles.WriteKeepsOrdered | src/registry_runtime.rs:1531-1569 | a write that stops anywhere keeps the files' generations ordered |
| SnapshotFiles.WriteIsAtomic | src/registry_runtime.rs:1460-1569 | stopped after any step, a write leaves exactly the old or exactly the new snapshot to be loaded, and the step alone decides which; the hypothesis is that main is there or nothing is |
| SnapshotFiles.CompleteWrite | src/registry_runtime.rs:1531-1569 | a completed write puts its snapshot in the main file, whatever was there before |
| SnapshotFiles.AtomicExactlyWhenSheltered | src/registry_runtime.rs:1537-1541 | a write is atomic if and only if the snapshot it replaces is not the one in .next, which it truncates first |
| SnapshotFiles.LosesExactly | src/registry_runtime.rs:1531-1569 | a write leaves neither the old nor the new snapshot if and only if the old one was in .next and it is stopped just after emptying that |
| SnapshotFiles.FilesAreARegister | src/registry_runtime.rs:1460-1655 | over runs in which no write is stopped just where it loses the snapshot it replaces, each write leaves what was loaded or installs its own value under the next generation, and a completed one installs it |
| SnapshotFiles.HistoryNeverOlder | src/registry_runtime.rs:1460-1655 | in such a history nothing older than a completed write is ever loaded again |
| SnapshotFiles.LastCompletedOrLater | src/registry_runtime.rs:1460-1655 | the loader returns the last completed snapshot or a later one, its generation above the one before |
| SnapshotFiles.NoTwoCrashesInARow | src/registry_runtime.rs:1460-1569 | it is enough that no two writes in a row fail |
| SnapshotFiles.TwoCrashesForget | src/registry_runtime.rs:1537-1541 | two crashes in a row: the snapshot that the first restart loaded is gone at the second |
| SnapshotFiles.ThreeCrashesLoseACompletedWrite | src/registry_runtime.rs:1537-1556 | three crashes in a row lose a snapshot whose write had completed |
| SnapshotStore.SnapshotDirectory.ReadCandidates | src/registry_runtime.rs:1634-1650 | the loop collects the readable snapshots and refuses a torn .retired or .previous |
| SnapshotStore.SnapshotDirectory.LoadSnapshot | src/registry_runtime.rs:1626-1655 | the loop over the candidates finds what the loader is specified to find |
| SnapshotStore.SnapshotDirectory.AtomicWrite | src/registry_runtime.rs:1460-1569 | the sequence of file mutations, stopped after any of them, leaves the specified directory |
| Persistence.Persist | src/registry_runtime.rs:1460-1665 | a save stopped anywhere but there, after others like it, leaves a start with what it would have found before or with the value saved, and with that if it completed |
| Persistence.CarefulAfterCompleted | src/registry_runtime.rs:1531-1569 | right after a completed save the next one is careful wherever it stops |
| Persistence.OlderSaveReturns | src/registry_runtime.rs:1537-1541 | after complete saves and one that stopped with the main file retired, one that stops after emptying .next brings back the last complete one |
| ArtifactStore.AskKeeps | src/registry_runtime.rs:1267-1372 | every request keeps in memory: published exactly at the full size with the right hash, confirmed at most the size and covered by the file, confirmed bytes unchanged, whatever becomes of save and file; and, if the save is careful, the index on disk behind the one in memory and all it confirmed |
| ArtifactStore.LifeKeeps | src/registry_runtime.rs:1267-1433 | within one life of the process confirmed bytes never change and publication stays, wherever saves stop |
| ArtifactStore.StepKeeps | src/registry_runtime.rs:271-290 | a restart keeps all that too, from an index whose saves were careful |
| ArtifactStore.RunKeeps | src/registry_runtime.rs:1267-1433 | over every run with careful saves of the index, restarts included, confirmed bytes on disk never change and publication stays |
| ArtifactStore.AckIsSaved | src/registry_runtime.rs:1267-1372 | an acknowledged write is covered by the index that was saved, with exactly its bytes at its offset |
| ArtifactStore.AckIsDurable | src/registry_runtime.rs:1267-1372 | and by the index on disk, given careful saves so far |
| ArtifactStore.OlderIndexReturns | src/registry_runtime.rs:1537-1541 | after complete saves of the index and one that stopped with the main file retired, one careless save brings back the last complete one, and what the stopped one had added is no longer on disk |
| ArtifactStore.UploadIsReached | src/registry_runtime.rs:1267-1372 | a run from an empty store to a published artifact whose publication is only in .next |
| ArtifactStore.UploadIsForgotten | src/registry_runtime.rs:1537-1541 | from there one careless save of the index leaves nothing of it confirmed on disk |
| ArtifactStore.LastingCompose | src/registry_runtime.rs:1267-1372 | what lasts over two runs lasts over both |
| ArtifactAnswers.RegistersExactly | src/registry_runtime.rs:845-900 | exactly the job's agent registers, a positive size and acceptable names only; agent and client of the job are enrolled, a new artifact has nothing confirmed, a known one keeps what it has, and nothing else changes |
| ArtifactAnswers.ConfirmsExactly | src/registry_runtime.rs:1267-1372 | a write is confirmed if and only if the peer is enrolled and means the registered size and hash, the chunk has 1 to 65536 bytes within the artifact and its own hash, file and index can be written, and it repeats confirmed bytes or continues them, completing the artifact only under the registered hash |
| ArtifactAnswers.TurnsAwayExactly | src/registry_runtime.rs:1274-1324 | who is refused, and why, before anything is written |
| ArtifactAnswers.WritesExactly | src/registry_runtime.rs:1294-1372 | a confirmed repetition changes nothing but the saved index; a confirmed continuation puts the chunk behind the confirmed bytes and publishes exactly what it completes |
| ArtifactAnswers.RefusedWrite | src/registry_runtime.rs:1267-1372 | a write that is not confirmed, on an index that could be saved, changes no entry and no other file |
| ArtifactAnswers.DescribesExactly | src/registry_runtime.rs:936-950 | a peer is told of an artifact if and only if it is enrolled and the artifact published |
| ArtifactAnswers.ReadsExactly | src/registry_runtime.rs:1388-1433 | a read is answered if and only if the peer is enrolled, the artifact published, size and hash those registered, and 1 to 65536 bytes asked for from within; it gets exactly those bytes |
| ArtifactTransfer.NetworkArtifacts.RegisterArtifact | src/registry_runtime.rs:845-900 | registering answers and changes the index as specified |
| ArtifactTransfer.NetworkArtifacts.WriteArtifact | src/registry_runtime.rs:1267-1372 | replays are recognised, mismatches refused, the next chunk appended |
| ArtifactTransfer.NetworkArtifacts.Append | src/registry_runtime.rs:1310-1372 | a chunk is appended at the confirmed offset, hashed when it completes the artifact, and rolled back in memory where hashing or saving fails |
| ArtifactTransfer.NetworkArtifacts.Handle | src/registry_runtime.rs:845-950 | each artifact request is served as specified |
| ArtifactTransfer.NetworkArtifacts.Serve | src/registry_runtime.rs:845-950 | so is any sequence of them |
| ArtifactTransfer.Wire.Call | src/bin/mesh-agent.rs:789-803 | a call is executed and answered, executed without an answer, or not executed |
| ArtifactTransfer.ExchangeSound | src/bin/mesh-agent.rs:823-889 | whatever happens to a call, as long as saves are careful what was durable stays; an answered registration may be read, an answered write extends the uploaded prefix |
| ArtifactTransfer.UploadedLasts | src/registry_runtime.rs:1267-1372 | an uploaded prefix stays uploaded |
| ArtifactPeers.Retry | src/bin/mesh-agent.rs:789-803 | up to three attempts; sound whatever is lost, and on a fair wire answered by the last of one or more executions |
| ArtifactPeers.PublishArtifact | src/bin/mesh-agent.rs:823-889 | if an id is returned, and saves of the index were careful, the registry has published exactly these bytes; and an id is returned on a wire without other traffic and other failures on which one of any three calls in a row arrives, also over an earlier partial upload of the same content |
| ArtifactPeers.ReadTells | src/registry_runtime.rs:1388-1433 | a read of a published artifact answers exactly the asked slice |
| ArtifactPeers.DownloadArtifact | src/bin/mesh-cli.rs:105-133 | the loop ends; as long as saves of the index are careful, what it returns for a published artifact is its content, and a participant whose calls arrive gets it |
| ArtifactPeers.RoundTrip | src/bin/mesh-cli.rs:105-133 | whatever was lost, retried or restarted in between, and wherever saves stopped as long as they were careful, a successful download after a successful upload returns the uploaded bytes |
| EventJournalRuns.EvictMakesRoom | src/dashboard/event_log.rs:261-270 | eviction ends with room for the event and never empties the queue under it |
| EventJournalRuns.EvictIsMinimal | src/dashboard/event_log.rs:261-270 | it drops no event it need not drop |
| EventJournalRuns.EvictKeepsWindow | src/dashboard/event_log.rs:261-270 | what stays is the newest part of the epoch's history, with its byte count and keys |
| EventJournalRuns.PushKeeps | src/dashboard/event_log.rs:271-292 | adding an event keeps the journal's invariant |
| EventJournalRuns.AppendMeaning | src/dashboard/event_log.rs:186-292 | an append keeps the invariant; an accepted event is the next of its epoch's history; duplicates and refusals change nothing; a failed precommit leaves at most the empty next epoch |
| EventJournalRuns.PreflightIsExact | src/dashboard/event_log.rs:294-337 | in a reachable journal the dry run succeeds if and only if the append would, apart from overflows of epoch and cursor |
| EventJournalRuns.PreflightDiffers | src/dashboard/event_log.rs:294-337 | where digests may collide the two differ exactly on a known key whose event exceeds a limit |
| EventJournalRuns.RestoreKeeps | src/dashboard/event_log.rs:439-463 | restoring a recorded sequence number keeps the invariant |
| EventJournalRuns.RotateKeeps | src/dashboard/event_log.rs:509-516 | rotation keeps the invariant |
| EventJournalRuns.SubscribeKeeps | src/dashboard/event_log.rs:420-437 | subscribing keeps the invariant |
| EventJournalRuns.AcknowledgeKeeps | src/dashboard/event_log.rs:465-498 | acknowledging keeps the invariant and never moves a subscriber back |
| EventJournalRuns.ExpireIdleKeeps | src/dashboard/event_log.rs:500-507 | dropping idle subscribers keeps the invariant |
| EventJournalRuns.PageMeaning | src/dashboard/event_log.rs:382-417 | a page holds exactly the wanted events of the entries it used up |
| EventJournalRuns.PageIsFull | src/dashboard/event_log.rs:382-417 | it stays within its room and stops only when full or when the next wanted event would not fit |
| EventJournalRuns.ReadMeaning | src/dashboard/event_log.rs:343-418 | a page is exactly the wanted history between its two cursors; a resync is demanded exactly when the epoch changed or the next event is gone |
| EventJournalRuns.OffersAreReadable | src/dashboard/event_log.rs:343-418 | every cursor offered by a resync or a cursor-ahead answer can be read at once |
| EventJournalRuns.StepGapFree | src/dashboard/event_log.rs:343-418 | one append, rotation, restore, subscription or read keeps the consumer free of gaps |
| EventJournalRuns.RunGapFree | src/dashboard/event_log.rs:343-418 | so does any run |
| EventJournalRuns.ConsumerSeesEverythingOnce | src/dashboard/event_log.rs:343-418 | over any run a consumer that resumes from returned cursors has received every wanted event since its last resync exactly once and in order |
| EventJournalAnswers.AcceptedExactly | src/dashboard/event_log.rs:186-292 | an event under a new key is appended if and only if it is valid, its key neither blank nor too long, its size and the count fit, its sequence is one above the recorded one (1 for a new activity) and below the last number, the precommit succeeds, and neither epoch nor cursor overflows; one under a known key is collapsed if and only if it is as well-formed and has the digest of the event retained under that key |
| EventJournalAnswers.RefusedExactly | src/dashboard/event_log.rs:186-292 | each refusal, and a failed precommit, is given exactly where it is due, in the order of the checks |
| EventJournalAnswers.PassesExactly | src/dashboard/event_log.rs:294-337 | what passes the dry run, told of the event and what is retained |
| EventJournalAnswers.RunSound | src/dashboard/event_log.rs:186-292 | over every run all events of the epoch are valid, were presented under well-formed keys, and are counted with their own size |
| EventJournalAnswers.ConsumerSeesValidEvents | src/dashboard/event_log.rs:343-418 | whatever a consumer of a fresh journal receives over a run, it asked for, and it is valid |
| EventJournalAnswers.ReadFillsPage | src/dashboard/event_log.rs:376-418 | a page holds at most as many events and bytes as the reader and the journal allow, ends early only where full or where the next wanted event does not fit, and is refused only where nothing is allowed or the very first wanted event does not fit |
| EventJournalAnswers.RestoredExactly | src/dashboard/event_log.rs:439-463 | a number is restored if and only if it is a possible one, contradicts no recorded one and has a place; then it is recorded, no other changes, and the next event the journal takes of that activity is the one behind it |
| EventJournalAnswers.RotatedExactly | src/dashboard/event_log.rs:509-557 | a later epoch, and only that, is opened, with nothing of the last one left in it |
| EventJournalAnswers.SubscribedExactly | src/dashboard/event_log.rs:420-437 | a new subscriber is taken if and only if there are fewer than 32, and starts at the beginning of the epoch |
| EventJournalAnswers.AcknowledgedExactly | src/dashboard/event_log.rs:465-498 | which cursors are acknowledged and which refused, told of the history and what is evicted; a subscriber never moves back |
| EventJournalAnswers.DroppedExactly | src/dashboard/event_log.rs:500-507 | exactly those idle for more than fifteen seconds are dropped |
| EventJournalStore.Inner.RotateLocked | src/dashboard/event_log.rs:548-557 | in place: the empty journal of the new epoch |
| EventJournalStore.Inner.MakeRoom | src/dashboard/event_log.rs:261-270 | the eviction loop terminates and does what eviction means |
| EventJournalStore.Inner.AppendWithPrecommit | src/dashboard/event_log.rs:186-292 | in place: the append, whose acceptance `AcceptedExactly` and whose refusals `RefusedExactly` tell |
| EventJournalStore.Inner.PreflightAppend | src/dashboard/event_log.rs:294-337 | answers as the dry run, which passes what `PassesExactly` tells, and changes nothing |
| EventJournalStore.Inner.ReadFiltered | src/dashboard/event_log.rs:343-418 | answers as the read, of which `ReadMeaning` and `ReadFillsPage` tell |
| EventJournalStore.Inner.BuildPage | src/dashboard/event_log.rs:382-417 | the loop builds the specified page |
| EventJournalStore.Inner.RestoreActivitySequence | src/dashboard/event_log.rs:439-463 | in place, as specified |
| EventJournalStore.Inner.RotateEpoch | src/dashboard/event_log.rs:509-516 | in place, as specified; epochs only rise |
| EventJournalStore.Inner.AddSubscriber | src/dashboard/event_log.rs:420-437 | in place, as specified |
| EventJournalStore.Inner.AcknowledgeCursor | src/dashboard/event_log.rs:465-498 | in place, as specified |
| AuditFrames.BigEndianRoundTrip | src/dashboard/audit.rs:1085-1092 | the length prefix reads back |
| AuditFrames.ReadBehind | src/dashboard/audit.rs:1099-1160 | what follows intact frames does not change how they are read |
| AuditFrames.AppendReads | src/dashboard/audit.rs:1085-1092 | a segment with an entry's frame appended reads back with the entry appended |
| AuditFrames.CutFrame | src/dashboard/audit.rs:1099-1160 | a frame cut anywhere reads as no entry, torn unless nothing of it is there |
| AuditFrames.TornTailRecovery | src/dashboard/audit.rs:1099-1160 | for every byte at which the last frame is cut: exactly the earlier entries, exactly their bytes kept, torn if and only if bytes were cut off; damage where no tear is allowed |
| AuditFrames.KeptIsIntact | src/dashboard/audit.rs:1108-1130 | what recovery keeps reads back cleanly |
| AuditFrames.IntactEitherWay | src/dashboard/audit.rs:1099-1160 | intact segments read the same whether or not a tear is allowed |
| AuditReading.IntactExactly | src/dashboard/audit.rs:1085-1160 | bytes are a segment with these entries if and only if they are frames, each four bytes of length, a payload that decodes to its entry, and the payload's hash, none longer than a segment |
| AuditReading.RecoversExactly | src/dashboard/audit.rs:1099-1160 | where a tear is allowed, what is kept is whole frames and what is cut off is less than the frame it begins would be; nothing else is read |
| AuditReading.DamagedExactly | src/dashboard/audit.rs:1099-1160 | everything else is refused as damage: a wrong hash, a payload that does not decode, a frame too long, a tear where none is allowed |
| AuditReading.RefusedExactly | src/dashboard/audit.rs:425-476 | the log is refused if and only if an active segment is missing or damaged, a tear being allowed in the current one only, or sequence numbers do not rise |
| AuditDisk.ElsewhereKeeps | src/dashboard/audit.rs:454-479 | a step on a segment the index does not name changes nothing that is read back |
| AuditDisk.CrashSafeJoin | src/dashboard/audit.rs:454-479 | crash safety composes |
| AuditDisk.CopySwapRemove | src/dashboard/audit.rs:684-729 | writing new segments aside, swapping the index, removing segments it no longer names: a crash anywhere leaves the old log or the new one, and the swap decides |
| AuditLog.StoresUpTo | src/dashboard/audit.rs:460-467 | each segment of a clean log reads cleanly and the ones before it hold what comes before |
| AuditLog.ExtendStores | src/dashboard/audit.rs:1085-1092 | a frame appended to the last segment appends its entry to the log |
| AuditLog.TruncateMends | src/dashboard/audit.rs:1108-1136 | cutting off the torn tail leaves the same contents cleanly stored |
| AuditLog.RotateSafe | src/dashboard/audit.rs:1002-1010 | sealing the current segment changes no contents at any step |
| AuditLog.TornAppend | src/dashboard/audit.rs:564-582 | a crash inside an append leaves the contents before it, torn exactly if some of its bytes are there |
| AuditLog.AppendSafe | src/dashboard/audit.rs:564-582 | a crash anywhere in an append leaves the contents before it, possibly torn, or with the record |
| AuditLog.RotateAppendSafe | src/dashboard/audit.rs:564-582 | so does an append that rotates first |
| AuditLog.OpenSafe | src/dashboard/audit.rs:454-500 | so does opening: a crash in it leaves the contents it found |
| AuditLog.AppendSilent | src/dashboard/audit.rs:564-582 | a crash in an append leaves the old contents without a tear exactly where no byte of the frame was written |
| AuditLog.OpenForgets | src/dashboard/audit.rs:454-500 | a crash while a torn log is opened, before the report is appended, leaves no trace of the tear exactly once the truncation is done |
| AuditLog.ForgottenUntilReported | src/dashboard/audit.rs:501-534 | with the report: exactly once the truncation is done and until the first byte of the report's frame is written |
| AuditLog.TornFirstFrame | src/dashboard/audit.rs:1108-1136 | an instance: a torn log, the crash after its truncation, and nothing left to report |
| AuditLog.NoticeFollows | src/dashboard/audit.rs:501-514 | the record reporting a tear follows all others except after the last 64-bit sequence |
| AuditLog.NoticeIsNext | src/dashboard/audit.rs:480-535 | and where it does, it is numbered next and dated like the last record |
| AuditLog.ChosenSplits | src/dashboard/audit.rs:653-659 | choosing records splits them: each side holds all that belongs there and nothing else |
| AuditLog.ChosenConserves | src/dashboard/audit.rs:653-659 | no record is lost or duplicated by choosing |
| AuditLog.OthersIncreasing | src/dashboard/audit.rs:653-659 | what is left is still strictly increasing |
| AuditLog.RewrittenContents | src/dashboard/audit.rs:687-693 | records followed by tombstones read back as those records and those tombstones |
| AuditRewrites.CopyCreate | src/dashboard/audit.rs:684-704 | starting a new segment disturbs neither log |
| AuditRewrites.CopyExtend | src/dashboard/audit.rs:687-706 | copying an entry extends the new log by it and leaves the old one |
| AuditRewrites.CopyDone | src/dashboard/audit.rs:709-729 | completing a rewrite is atomic under crashes |
| AuditRewrites.CopyAbandoned | src/dashboard/audit.rs:694-698 | a rewrite given up half way leaves the log as it was |
| AuditRewrites.ReplacementDone | src/dashboard/audit.rs:684-729 | replacing the whole log is atomic under crashes |
| AuditRewrites.StillNumbered | src/dashboard/audit.rs:678-686 | numbers above the current segment are taken only once the next one is |
| AuditRewrites.DeletionKeeps | src/dashboard/audit.rs:630-690 | a deletion leaves precisely the records that do not match, in order, then one numbered next and dated now; counts add up and every tombstone stays |
| AuditRetention.RetentionConserves | src/dashboard/audit.rs:827-841 | retained records and the counts of all tombstones add up to what they were |
| AuditRetention.RetentionKeeps | src/dashboard/audit.rs:798-807 | precisely the records at or after the cutoff stay, in order, and all old tombstones |
| AuditRetention.RetainedForDays | src/dashboard/audit.rs:749-758 | what is past the cutoff is more than so many days old |
| AuditRetention.FaithfulStep | src/dashboard/audit.rs:779-825 | after each segment the new log is the old one without its older records |
| AuditRetention.DropStep | src/dashboard/audit.rs:788-797 | a replaced segment is summed up under its number and hash |
| AuditRetention.AddStep | src/dashboard/audit.rs:808-824 | its replacement is summed up under its number and hash |
| AuditRetention.SummaryTells | src/dashboard/audit.rs:827-841 | the tombstone is true: how many records went, over what span, which segments with what bytes, what replaces them |
| AuditRetention.RetainedContents | src/dashboard/audit.rs:827-871 | the compacted log holds the retained records, the old tombstones and the new one |
| AuditRetention.RetentionDone | src/dashboard/audit.rs:849-883 | finishing retention is atomic under crashes |
| AuditRetention.NewIndexOk | src/dashboard/audit.rs:868-873 | the new index is in order, and the number after the sealed segment is in use |
| AuditStores.ScanSegment | src/dashboard/audit.rs:1099-1160 | the reading loop computes what reading a segment means |
| AuditStores.AuditStore.CreateSegment | src/dashboard/audit.rs:999-1001 | creating a segment fails exactly where the file exists |
| AuditStores.AuditStore.AppendFrame | src/dashboard/audit.rs:1085-1092 | three writes append one frame |
| AuditStores.AuditStore.WriteIndex | src/dashboard/audit.rs:1011-1026 | the index on disk becomes the one in memory |
| AuditStores.AuditStore.Rotate | src/dashboard/audit.rs:1002-1010 | succeeds if and only if no segment is numbered above the current one; otherwise nothing changes |
| AuditStores.AuditStore.AppendInner | src/dashboard/audit.rs:564-582 | the record is appended, after a rotation where one is due, unless that rotation fails |
| AuditStores.AuditStore.Append | src/dashboard/audit.rs:536-562 | the exact answer; a record is added whole or not at all; only a failed rotation makes the store unavailable |
| AuditStores.AuditStore.ReadActive | src/dashboard/audit.rs:457-467 | the loop reads the active segments in order and cuts a torn tail off the current one |
| AuditStores.AuditStore.RemoveStrays | src/dashboard/audit.rs:474-478 | exactly the segments the index does not name are removed |
| AuditStores.AuditStore.Settle | src/dashboard/audit.rs:474-500 | opening settles memory and directory on what was read |
| AuditStores.AuditStore.Open | src/dashboard/audit.rs:428-534 | what was read is what is stored, plus one record if and only if a tail was torn and the record can be appended; when exactly it can; and of a torn log, at exactly which crash points the tear is no longer reported by the next opening |
| AuditStores.AuditStore.CopyEntries | src/dashboard/audit.rs:678-706 | entries go into new segments within the limit, or the copy is given up exactly because one is too large |
| AuditStores.AuditStore.Rewrite | src/dashboard/audit.rs:678-731 | the log is replaced or left alone, and atomically either way |
| AuditStores.AuditStore.Delete | src/dashboard/audit.rs:630-731 | the exact answer; the records left are those that do not match, in order, then the record of the deletion; atomic under crashes; afterwards rotation works |
| AuditStores.AuditStore.WriteReplacement | src/dashboard/audit.rs:808-817 | what is left of a segment is written to the next new one |
| AuditStores.AuditStore.CompactSegment | src/dashboard/audit.rs:779-825 | a candidate is kept, dropped or replaced |
| AuditStores.AuditStore.CompactCandidates | src/dashboard/audit.rs:761-825 | the loop compacts every segment but the sealed one |
| AuditStores.AuditStore.WriteSummary | src/dashboard/audit.rs:849-864 | the tombstone is written to a segment of its own and reads back |
| AuditStores.AuditStore.FinishRetention | src/dashboard/audit.rs:849-890 | the summary, the swap, the removals and the re-read |
| AuditStores.AuditStore.EnforceRetention | src/dashboard/audit.rs:733-891 | nothing happens unless a record is past the cutoff; otherwise exactly the retained contents with a true tombstone behind an empty current segment, atomically, or the old contents and an unavailable store |
| AuditStores.AuditStore.NextDayAfterRetention | src/dashboard/audit.rs:869-873 | after a retention that deleted something the first record is taken exactly if it follows and fits, and then the first one of another day fails and makes the store unavailable |
| AuditStores.ReopenAfterRewrite | src/dashboard/audit.rs:630-731 | a crash anywhere in a deletion or retention, then opening: exactly the old or exactly the new contents, nothing reported |
| AuditStores.ReopenAfterAppend | src/dashboard/audit.rs:564-582 | a crash anywhere in an append, then opening: with the record, without it, or without it and one report |
| AuditStores.ReopenAfterOpening | src/dashboard/audit.rs:428-534 | a crash anywhere in the opening of a torn log, then opening again: the tear is reported once, except exactly after the truncation and before the report's first byte |
| AuditQueries.RunQuery | src/dashboard/audit.rs:584-628 | the answer is the longest page within the limits at every item, or the right refusal |
| AuditQueries.Resuming | src/dashboard/audit.rs:597-628 | resuming behind an item asks for exactly what follows it |
| AuditQueries.PagesListEverything | src/dashboard/audit.rs:584-628 | following the cursors lists a prefix of all matching records numbered above the first cursor, without repetition, and all of them unless one record alone exceeds a page |
| AuditQueries.FromTheStart | src/dashboard/audit.rs:597-628 | without a cursor that is every matching record except one numbered 0, which no query lists |
| AuditQueries.NeverAhead | src/dashboard/audit.rs:597-600 | the limit for cursors is the largest number there is, so a cursor that a page ends with is never refused |
| AuditQueries.FitsAsSent | src/dashboard/audit.rs:1060-1067 | what is counted while a page is filled is the length of the page as it is sent |
| ChunkStores.AnyWrites | src/lib.rs:3476-3536 | whatever is written in whatever order, a stored chunk never changes, published means nothing missing and every hash right, and publication is never taken back |
| ChunkStores.OrderIndependent | src/lib.rs:3476-3536 | for the right content in any order with repetitions: exactly the arrived chunks are stored, the last missing index publishes, and the content is the chunks in index order |
| ChunkStores.ReceiveMeans | src/lib.rs:3503-3534 | a chunk that publishes does so under the registered hash |
| ChunkStores.ReceivesExactly | src/lib.rs:3494-3534 | what becomes of a chunk: a known one is confirmed exactly if it is the same, a new one is stored or publishes exactly if it has its hash and, as the last, completes the registered size and hash, and everything else is refused |
| ChunkStores.ChunkStore.Register | src/lib.rs:3436-3459 | the exact answer; the upload starts over |
| ChunkStores.ChunkStore.MissingChunks | src/lib.rs:3461-3474 | exactly the missing indices; none if and only if published |
| ChunkStores.ChunkStore.WriteChunk | src/lib.rs:3476-3536 | the exact answer and the exact change |
| ChunkStores.ChunkStore.Read | src/lib.rs:3538-3562 | a published artifact has the registered hash and is the chunks in order unless two contents share it |
| AgentJobs.SharedIdentifierSharesJob | src/lib.rs:6230-6324 | over any run accepted submissions that share a request id or a key get one job and are the same operation |
| AgentJobs.AnsweredExactly | src/lib.rs:6230-6324 | a submission starts a new job if and only if both its identifiers are new, and is answered with a known job if and only if its identifiers name that job and it differs from the job's request in nothing but them |
| AgentJobs.RepetitionGetsItsJob | src/lib.rs:6230-6324 | over any run: repeating an accepted submission under one of its identifiers gets its job if nothing else differs and is a conflict otherwise |
| AgentJobs.ReportIsKept | src/lib.rs:6459-6477 | what a worker reports of a job that has not ended is stored as reported under the next number and stays there over any run; of an ended job nothing is |
| AgentJobs.AcceptedStays | src/lib.rs:6230-6324 | an accepted submission's identifiers name its job ever after |
| AgentJobs.NeverForgets | src/lib.rs:6230-6324 | no identifier is remapped, no job's request changes, events are only added |
| AgentJobs.RunKeeps | src/lib.rs:6230-6324 | identifiers name known jobs and events are well numbered after every run |
| AgentJobs.StartedOnce | src/lib.rs:6271-6322 | no job is started twice |
| AgentJobs.AcceptedWasStarted | src/lib.rs:6271-6322 | every job was started by a submission |
| AgentJobs.EventsOfJob | src/lib.rs:6459-6477 | under any interleaving of appends the events are numbered from one, begin with the acceptance, and hold at most one terminal event, which is last |
| AgentJobs.LaterIsRest | src/lib.rs:6326-6346 | filtering by sequence is taking the rest |
| AgentJobs.AppleAgent.Submit | src/lib.rs:6230-6324 | the exact answer and the exact change; a worker starts exactly for a new job |
| AgentJobs.AppleAgent.AppendEvent | src/lib.rs:6459-6477 | an event is added unless a terminal one is there |
| AgentJobs.AppleAgent.EventsAfter | src/lib.rs:6326-6346 | exactly the events behind the cursor, or the right refusal |
| SegmentHeaders.NumberRoundTrip | src/registry_event_store/codec.rs:66-70 | little-endian integers read back |
| SegmentHeaders.BytesRoundTrip | src/registry_event_store/codec.rs:86-90 | and every byte string is the encoding of the integer it reads as |
| SegmentHeaders.DecodesExactly | src/registry_event_store/codec.rs:75-94 | decoding accepts exactly the encodings of consistent headers and returns the header |
| SegmentHeaders.AcceptsExactly | src/registry_event_store/codec.rs:27-54 | which 158 bytes are accepted, told of the bytes: origin, flags, part number, predecessor, body length and event numbers |
| SegmentHeaders.EncodingUnique | src/registry_event_store/codec.rs:56-72 | a header has only one encoding |
| SegmentHeaders.LayoutEncodes | src/registry_event_store/codec.rs:56-72 | the fields in order are the encoding |
| SegmentHeaders.ReencodesExactly | src/registry_event_store/codec.rs:56-94 | an accepted header encodes to its own bytes again |
| SegmentHeaders.Encode | src/registry_event_store/codec.rs:56-72 | the array filled slice by slice is the encoding and decodes to the header; refused exactly when inconsistent |
| SegmentHeaders.SegmentExactly | src/registry_event_store/codec.rs:97-110 | a segment is accepted exactly when it is an encoded header and a body of the declared length |
| SegmentHeaders.ExactExtent | src/registry_event_store/codec.rs:97-110 | no accepted segment is a proper prefix of another |

## Left out

- TLS, certificates, signatures, pairing, the request envelope's checks, path and permission checks: the peer is given and a signed grant is a value.
- The legacy `Run` and `Complete` requests and the heartbeat's answer when a legacy and an Apple job are both ready.
- The list of cancelled jobs that every heartbeat's answer carries: it is the `cancelled` set, whoever asks.
- The clamping of the event journal's limits to fixed ones when it is made (`src/dashboard/event_log.rs:164-165`): here they are any numbers.
- The read-only mode entered when the registry's own state file is corrupt, and a start that refuses corrupt files: no run of saves produces them (`SnapshotFiles.WriteKeepsOrdered`).
- A save of the job maps that fails while a job is created or cancelled stops the registry's thread in the code; here it is a refusal after which anything may happen, a restart included.
- A write whose last directory sync fails: the files are then complete and the answer is a failure (`src/registry_runtime.rs:1566`); a save that answers with a failure here stopped earlier.
- Other threads between the two times a dispatch or a progress report takes the lock of the lease book (`src/registry_runtime.rs:461-510` and `:512-518`, `:757-772` and `:788-815`): they can run requests that take that lock only; here each of the two is one step.
- That time passes inside a critical section: each reads the clock once; and that the clock is monotone is not needed.
- Lease identifiers' text: they are numbers, zero where none was issued, and the counter does not wrap at 64 bits. Job identifiers are the key under an injective hash.
- Events delivered by an agent that no longer owns the job: reports come from the agent a job was dispatched to.
- RegistryRuns.DurableStable: assumes careful saves, without which it is false (`RegistryRollBacks.AcknowledgementIsLost`); and it says nothing of a lease renewed after its release was deferred, because the release still happens when the fence goes (`src/registry_runtime.rs:155-158`, `:1041-1054`).
- RegistryRuns.FenceStable: does not say that the fence's job is pending, because a dispatch whose lease file cannot be saved returns early and leaves a fence on a job that may then be cancelled (`src/registry_runtime.rs:484`, `:828`).
- RegistryRuns.NeverHandedOutAgain: assumes careful saves, without which it is false (`RegistryRollBacks.WithdrawnIsHandedOut`).
- ArtifactStore.RunKeeps: assumes careful saves of the index, without which it is false (`ArtifactStore.UploadIsForgotten`).
- SnapshotFiles.WriteIsAtomic: generations are below the last 64-bit number, where the stamp saturates and two snapshots tie.
- The saturation of 64-bit offsets in the artifact store's guards, and the length limits of names and media types beyond their acceptance.
- ArtifactPeers.PublishArtifact: that an id is returned is claimed for wires on which nothing but retried losses happens and one of any three calls in a row arrives; that a returned id is right is claimed for all wires, with careful saves of the index.
- The events, ids and messages of the dashboard's data model: opaque, with a validity predicate. `src/dashboard/model.rs` is not part of this model.
- The first opening of an audit directory without an index, and indexes of version 1 that list no segments; `AuditStores.AuditStore.Open` starts from an index the store has written.
- AuditStores.AuditStore.Open: the refusal does not tell damaged segments and decreasing sequences apart; and the sequence of the report wraps at 64 bits, as an unchecked build does.
- I/O errors in the audit log other than a segment that already exists, its lock file, the redactor, export and signatures; the numbers of segments do not saturate.
- AuditStores.AuditStore.EnforceRetention: that an entry is too large is traced to the log's entries or to the new tombstone, not to one of them.
- Redaction, discovery, Apple tools, command-line parsing, the user interface, the dashboard service, local IPC and the event-store submodules beside the header.
- The chunk store's artifact files under a hash collision: `ChunkStores.ChunkStore.Read` says what holds then.

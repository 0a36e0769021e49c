# The Distributed FS control plane, modelled and proved in Dafny

Distributed FS keeps files on several storage nodes. A manager gives each write of a key the next version number, splits
the content into 4 MiB chunks with SHA-256 checksums, writes the chunks to a primary node, publishes a metadata record,
and lets a background worker copy the chunks to the other replicas. The worker draws its work from a queue of
replication tasks with leases, exponential backoff and a limit of five attempts; a repair pass adds replicas and
asks for the copies that are missing. Metadata and queue exist in memory and on disk (bbolt).

Verify it with `dafny verify dfyconfig.toml`.

## How it is laid out

| file | what it holds |
|---|---|
| `Types`, `Ordering`, `Naming` | records and errors; sorted listings of maps; object names and task identifiers |
| `Chunking`, `Objects`, `Transfer` | the streaming chunker against a plain partition; storage nodes; writing, reading and copying versions |
| `Metadata`, `Queue`, `Placement`, `Repair`, `Coordinator` | the control plane: transitions as functions, the classes that perform them |
| `Service` | `Put`, `Get`, `Delete`, `WorkOnce` and the drain loop as whole operations |
| `Lifecycle`, `Limits`, `Attempts` | the queue under one worker: attempt and work bounds, and the runs that reach them; attempts against starts in every run of the manager |
| `Cluster` | the manager as a step machine with free interleaving; safety of every run |
| `Durability` | the machine together with the contents of the nodes: when healthy replicas are honest |
| `Refinement`, `Histories` | every whole service operation, failing ones included, is a run of the first machine and a history of the second |
| `Sessions` | any sequence of calls on a fresh service, and what follows for it |
| `Recovery`, `Convergence` | what repair achieves from every reachable state; exactly when repair and drain make every replica of a file whole |
| `Counterexamples`, `TornCopy` | runs that break what the documentation promises |
| `Bolt`, `DiskQueue`, `DiskMetadata`, `Lockstep` | the persistent forms and their simulation of the in-memory ones |
| `Cipher` | counter mode stream copy (section 6.5 of NIST SP 800-38A) |

A stateful component is a class whose `State()` is an immutable value (`Meta`, `Backlog`); each of its methods is proved to
perform one member function of that value. The step machines use the same functions, so that what is proved of
every run is about the same transitions as the methods.

The hash is a parameter. Nothing is assumed of it except, where a contract says `CollisionFree`, that different byte
sequences have different digests. The block cipher, the record codec and the clock readings are parameters too. Storage
nodes may lose data, refuse operations and answer with arbitrary bytes unless a contract says otherwise (`readsWork`,
`writesWork`, `deletesWork`).

## What turned out not to hold

- A healthy replica need not hold the current version. `FinishReplication` marks the target healthy without comparing
  versions (`Counterexamples.StaleFinishReachable`: two nodes, an empty file written twice, one late copy). A `Put` whose commit
  is refused after publishing deletes the chunks it has just published (`Counterexamples.RefusedCommitReachable`: a node without a
  name; `Counterexamples.UnstorableCopyReachable`: a key the database accepts whose copy it cannot store). A crash inside a
  second copy onto a replica that is healthy already leaves a torn chunk there (`TornCopy.TornCopyReachable`). Over whole runs,
  with one worker and nodes that keep what is written, these are the only three ways: `Durability.HonestIffSafe`. A caller can
  rule all of them out: `Durability.CurrentRunsSafe`. Reads are safe regardless (`Cluster.ReadSafety`).
- The documentation says that the background loop turns pending, missing and stale replicas healthy. A copy that has
  once been done or died under its identifier is not queued again (`Recovery.NeverRetried`). `Recovery.RepairRetries` says exactly
  when a repair pass leaves a copy that can still run, `Convergence.RepairAndDrain` exactly when repair and drain make every
  replica of a file whole, and `Convergence.ReadyAfterSafeRun` that its hypotheses can be read off the records after every safe run.
- A repair pass that works from an older listing can take the primary of a fresh write out of service
  (`Recovery.LostPrimaryReachable`); exactly when, says `Recovery.AddReplicaExact`.
- A `Put` can fail after it has published: with the in-memory queue exactly if a healthy node is registered under the
  empty ID (`Service.ManagedFileService.Put`, `Service.EmptyIdIsPrimary`), with a persistent one also if a copy's identifier cannot be
  stored (`Durability.RefusableExact`).
- Five attempts are not the end of an entry: reopening the queue ignores attempts. Every number of restarts is used up by
  some run (`Limits.AttemptsReached`); an entry passes the limit exactly if a restart found it running in its last attempt
  (`Lifecycle.PastLimitExact`).
- A worker that outlives its lease brings a dead entry back to done (`Lifecycle.LateWorkerRevivesDead`); with one
  worker and the manager's own loop done and dead are final (`Lifecycle.FinishedForGood`).
- A failed `replicateChunks` may leave chunks on the target: with working deletes exactly if the failure was a read of
  the source (`Transfer.LeftoverExact`; told from the contents before the call by `Transfer.LeftoverPredicted`; `Transfer.HalfCopyStays` is
  an instance), apart from what a refused write left at its own place.
- The 64-bit product of the backoff is the true one exactly up to 33 attempts (`Queue.BackoffOverflows`); the attempt limit
  keeps `MarkFailed` from computing a wrong one.
- Every node ID that contains ':' gives two different copies one identifier (`Naming.TaskIdAmbiguous`, `Naming.TaskIdAmbiguousTarget`);
  IDs without it never do (`Naming.TaskIdInjective`). A file stored whole can share a name with a chunk of another key
  (`Naming.WholeObjectCollision` has the exact condition).

## Model

| member | source | states |
|---|---|---|
| Cluster.ReadSafety | distributed-fs/managed_file_service.go:88-112 | in every run with every interleaving, and whatever the nodes answer, bytes that a Get accepts are those of the one Put that committed the version in the metadata it returns |
| Cluster.TaskManifests | distributed-fs/coordinator.go:94-118 | in every reachable state each queued copy goes between two different nodes, has a version no newer than the current one, and carries exactly the checksum and manifest committed for its key and version |
| Cluster.SkippedIsSameCopy | distributed-fs/replication.go:171-180 | with node IDs free of ':', a copy that Enqueue passes over in a reachable state is the queued copy down to the manifest |
| Cluster.VersionAgreement | distributed-fs/managed_file_service.go:59-85 | whatever runs between prepare and commit, the version the chunks were written under is the one published, it is newer than every earlier event on the key, and the record describes the staged bytes |
| Cluster.VersionsCountEvents | distributed-fs/metadata.go:150-242 | the version of a key equals its number of commits plus tombstones, and versions of events on a key increase strictly |
| Cluster.TombstoneFinal | distributed-fs/coordinator.go:163-184 | from a tombstone until the next publication on the key every read that starts gets ErrFileDeleted, whatever late workers, repairs, reads and restarts do |
| Cluster.NextInv | distributed-fs/coordinator.go:62-293 | every single step of writers, readers, worker, repair, sweep, heartbeat and restart keeps the invariant that ties records, queue, held plans and the writer to the history of commits |
| Cluster.RunInv | distributed-fs/coordinator.go:62-293 | the invariant holds after every run from the empty state |
| Cluster.RestartForgets | distributed-fs/replication_disk.go:40-58 | a restart forgets what was in flight, keeps the records and leaves no entry running |
| Refinement.PutIsRun | distributed-fs/managed_file_service.go:59-85 | a Put whose writes succeed equals the run stage, plan, prepare, one step per chunk, publish, enqueue |
| Refinement.PutFailsIsRun | distributed-fs/managed_file_service.go:59-76 | a Put that finds no healthy node, or fails after any number of chunks, equals a run that changes nothing |
| Refinement.GetIsRun | distributed-fs/managed_file_service.go:88-112 | a Get with its demotions equals the run that takes the plan, marks each failed replica and ends |
| Refinement.DeleteIsRun | distributed-fs/managed_file_service.go:115-136 | a Delete equals the run look, tombstone, done |
| Refinement.WorkIsRun | distributed-fs/worker.go:27-54 | one round of the worker equals the run that starts the entry, ends it and marks the target |
| Refinement.RepairIsRun | distributed-fs/coordinator.go:207-293 | an undisturbed PlanRepair equals a run that lists the files, adds replicas one by one and enqueues |
| Durability.HealthyIsReadable | distributed-fs/managed_file_service.go:243-303 | in every safe run every healthy replica of a live file holds all chunks of the current version, and reading it back from a faithful node gives the committed bytes |
| Durability.HonestIffSafe | distributed-fs/coordinator.go:94-141 | over a whole run healthy replicas hold the current version at every point if and only if every finished copy targets a node that holds it or is no replica of a live file, every commit refused after publishing removes nothing or finds its primary no longer healthy, and every crash inside a copy onto a healthy replica of the current version leaves all of that version there |
| Durability.FinishExact | distributed-fs/coordinator.go:130-141 | one FinishReplication keeps healthy replicas honest if and only if its target holds the current version or is no replica of a live file |
| Durability.RefuseExact | distributed-fs/managed_file_service.go:78-82 | one commit refused after publishing, with any part of the deletes working, keeps healthy replicas honest if and only if nothing is removed or the primary is not healthy any more |
| Durability.RefusableExact | distributed-fs/coordinator.go:104-110 | a commit can be refused after publishing if and only if its copies cannot be listed or the persistent queue cannot store one of their IDs |
| Durability.CrashExact | distributed-fs/store.go:138-157 | one crash, with anything left where the running Put and the running copy were writing, keeps healthy replicas honest if and only if the copy was not overwriting a healthy replica of the current version or left all of it |
| Durability.CurrentRunsSafe | distributed-fs/coordinator.go:94-141 | if every finishing copy carries the current version, every published file has a named primary and storable copy IDs, and no crash hits a copy onto a healthy replica of the current version, the run is safe |
| Durability.MoveInv | distributed-fs/worker.go:27-54 | each move of the joint machine (chunk writes, aborted puts, refused commits, scrubs, copies, failures, finishes, crashes, control steps), safe where it is a finish, a refusal or a crash, keeps healthy replicas and the running Put backed by node contents; only a refusal can take a finished copy away |
| Durability.HistoryInv | distributed-fs/object.go:87-123 | that invariant holds after every safe run |
| Histories.PutIsHistory | distributed-fs/managed_file_service.go:59-85 | a Put that succeeds, with the contents its contract promises, equals a history of the joint machine |
| Histories.PutFailsIsHistory | distributed-fs/managed_file_service.go:59-76 | a Put that fails before publishing equals a history that touches at most the places it was to write |
| Histories.PutRefusedIsHistory | distributed-fs/managed_file_service.go:78-82 | a Put refused after publishing, with whatever part of its chunks it removed, equals a history |
| Histories.GetIsHistory | distributed-fs/managed_file_service.go:88-112 | a Get equals a history that leaves the contents alone |
| Histories.DeleteIsHistory | distributed-fs/managed_file_service.go:115-136 | a Delete, with whatever it removed from its replicas, equals a history |
| Histories.WorkIsHistory | distributed-fs/worker.go:27-54 | one round of the worker, with what its copy did to the target, equals a history |
| Histories.RepairIsHistory | distributed-fs/coordinator.go:207-293 | an undisturbed PlanRepair equals a history that leaves the contents alone |
| Histories.ReachableManifests | distributed-fs/managed_file_service.go:386-393 | in every reachable state every record, tombstones included, has at least one chunk |
| Histories.ControlIsRun | distributed-fs/worker.go:27-54 | the control state after every history of the joint machine is that of a run of the control machine, so the theorems about runs hold of histories |
| Sessions.Serve | distributed-fs/managed_file_service.go:54-175 | any sequence of calls on a fresh service ends where a history ends; every successful Get returns the bytes and version of the last Put of the key that published; if the history is safe every healthy replica reads back |
| Sessions.ServePut | distributed-fs/managed_file_service.go:59-85 | one Put, successful, failed or refused, extends the history, and the log by its version exactly if it published |
| Sessions.ServeGet | distributed-fs/managed_file_service.go:88-112 | one Get extends the history, and what it returns is the committed current version |
| Counterexamples.StaleFinishReachable | distributed-fs/coordinator.go:130-141 | for every hash a run with a late copy ends with a healthy replica of a live file that lacks its current version |
| Counterexamples.RefusedCommitReachable | distributed-fs/managed_file_service.go:78-82 | for every hash a run without an unsafe finish ends with a healthy primary that holds nothing, after a commit refused for its nameless primary |
| Counterexamples.UnstorableCopyReachable | distributed-fs/replication_disk.go:61-74 | the same with named nodes, for a key the database accepts whose copy ID it does not |
| Counterexamples.DoneCopyReachable | distributed-fs/replication.go:171-179 | a reachable state in which a replica needs a copy whose entry is done |
| TornCopy.TornCopyReachable | distributed-fs/object.go:91-115 | for every hash a run with three nodes ends with a healthy replica whose chunk a crash inside a second copy has lost |
| Recovery.RepairComplete | distributed-fs/coordinator.go:207-293 | in every reachable state with node IDs free of ':', after a repair pass a repairable file has max(old, min(replica count, size of old replicas joined with healthy nodes)) replicas, and for each one that needs a copy the queue holds that copy: current version, manifest, least healthy source |
| Recovery.RepairRetries | distributed-fs/replication.go:171-180 | there, the entry under the ID of each copy a pass wants is that copy, and it is pending if and only if none was queued under its ID before or the one queued was pending |
| Recovery.NeverRetried | distributed-fs/replication.go:171-180 | a reachable state in which a replica needs a copy and every repair pass leaves its entry done |
| Recovery.AddReplicaExact | distributed-fs/metadata.go:272-290 | adding a replica leaves a live file readable if and only if another node than the added one is healthy |
| Recovery.LostPrimaryReachable | distributed-fs/coordinator.go:263-293 | a reachable state whose file is readable until a repair pass with an older listing adds its fresh primary again as pending |
| Convergence.RepairAndDrain | distributed-fs/main.go:290-297 | with a healthy node, working nodes, honest healthy replicas, good waiting copies and node IDs free of ':', repair and drain stop for lack of work, and every replica of a repairable file (not marked deleted) is healthy and holds it, on the nodes the pass chose, if and only if each copy the pass wants for it has its ID free or a copy to that replica waiting |
| Convergence.SteadyAfterRepair | distributed-fs/coordinator.go:207-293 | after a repair pass every waiting copy, old or new, will succeed, and every replica of such a file that needs a copy has one waiting |
| Convergence.TakenIdNotQueued | distributed-fs/replication.go:171-179 | a wanted copy whose ID is taken and to whose replica none waits is not queued by the pass |
| Convergence.ReadyAfterSafeRun | distributed-fs/coordinator.go:130-141 | after every safe run healthy replicas are honest, and waiting entries that are current, due and come from a healthy replica are good copies |
| Service.SteadyRound | distributed-fs/worker.go:27-54 | a successful round keeps that so for all other copies |
| Lifecycle.AttemptsBounded | distributed-fs/replication_disk.go:40-58 | with one worker no entry is attempted more than five times plus once per restart |
| Limits.AttemptsReached | distributed-fs/replication_disk.go:40-58 | for every r some run with r restarts attempts an entry 5 + r times |
| Lifecycle.PastLimitExact | distributed-fs/replication_disk.go:48-53 | an entry passes five attempts, or waits for a sixth, if and only if a restart found it running with at least five |
| Lifecycle.WorkBounded | distributed-fs/replication.go:171-249 | starts, completions, failures and lease expiries number at most 10 per enqueued entry plus one per revived last attempt; at most 10n + r for r restarts if the worker never abandons an entry |
| Limits.WorkReached | distributed-fs/replication.go:171-249 | for every n > 0 and r some run makes exactly 10n + r of these transitions |
| Lifecycle.FinishedForGood | distributed-fs/replication.go:268-297 | with one worker a done or dead entry is never changed by any later step |
| Attempts.AttemptsCountStarts | distributed-fs/replication.go:195-207 | in every run of the manager the attempts of an entry are the number of its starts |
| Attempts.DeadAfterFifthStart | distributed-fs/replication.go:268-283 | an entry enqueued by a Put or a repair pass dies of a failure if and only if it had been started at least five times, and is pending again otherwise |
| Attempts.EnqueuedFresh | distributed-fs/coordinator.go:104-118 | what Puts and repair passes enqueue is what the queue bounds assume: pending and untried |
| Lifecycle.LateWorkerRevivesDead | distributed-fs/replication.go:210-222 | a worker that finishes after its lease was swept turns a dead entry done |
| Chunking.StageReader | distributed-fs/managed_file_service.go:317-397 | for every way the reads are split the result is the plain partition of the bytes read, with their size and checksum; a read error is returned as such |
| Chunking.PartitionIsTheManifest | distributed-fs/managed_file_service.go:317-397 | the partition is the one and only manifest: at least one chunk, consecutive indices, contiguous offsets covering the bytes, all chunks full but the last, each checksum that of its slice |
| Chunking.AssembleExact | distributed-fs/managed_file_service.go:243-303 | a replica is accepted with the described bytes if and only if it answers every chunk with that chunk's bytes |
| Chunking.AssembleSound | distributed-fs/managed_file_service.go:258-300 | nothing but the described bytes can be accepted, whatever was answered |
| Naming.ChunkNameInjective | distributed-fs/object.go:131-137 | two chunk objects share a name if and only if key, index and version agree, for all keys and for indices of any length |
| Naming.WholeObjectCollision | distributed-fs/object.go:131-137 | a whole object shares a name with a chunk if and only if its key is spelled as that chunk's object key and the versions agree |
| Naming.PaddedRoundTrip | distributed-fs/object.go:135-137 | the six-place rendering of an index can be read back, also past six digits |
| Naming.RenderingShape | distributed-fs/object.go:131-137 | no superfluous zeros in a version, at least six places in an index |
| Naming.NameExamples | distributed-fs/object.go:131-137 | some names and an identifier in full |
| Naming.TaskIdInjective | distributed-fs/replication.go:260-262 | with node IDs free of ':' identifiers agree if and only if key, version, source and target do |
| Naming.TaskIdTargetInjective | distributed-fs/replication.go:260-262 | for one version and source identifiers tell targets apart without any condition |
| Naming.TaskIdAmbiguous | distributed-fs/replication.go:260-262 | every copy from a node whose ID contains ':' shares its identifier with a copy between other nodes |
| Naming.TaskIdAmbiguousTarget | distributed-fs/replication.go:260-262 | the same for a target |
| Objects.PlacesDiffer | distributed-fs/object.go:131-137 | places of chunks agree if and only if node, key, version and index do |
| Objects.HoldsElsewhere | distributed-fs/managed_file_service.go:306-314 | touching the chunks of one version on one node leaves what any other version, key or node holds as it was |
| Objects.ReadableIffHolds | distributed-fs/managed_file_service.go:243-303 | from faithful nodes a replica reads back as the file if and only if it holds every chunk |
| Objects.CopiedHolds | distributed-fs/object.go:87-123 | a successful verified copy of a described version leaves the target holding it |
| Objects.DeleteObjects | distributed-fs/managed_file_service.go:306-314 | only the objects of that version on that node are touched, and with working deletes exactly they disappear |
| Objects.ObjectStore.ReadObject | distributed-fs/object.go:14-20 | contract of a node's read: faithful if reads work, else anything |
| Objects.ObjectStore.WriteObject | distributed-fs/object.go:14-20 | contract of a node's write: success stores the bytes, failure may leave anything at that one place |
| Objects.ObjectStore.DeleteObject | distributed-fs/object.go:14-20 | contract of a node's delete: the object goes, or stays if deletes do not work |
| Transfer.WriteChunks | distributed-fs/managed_file_service.go:214-240 | success stores every chunk of the staged bytes under its own place; failure with working deletes leaves none; nothing else is touched; fitting chunks and working writes mean success |
| Transfer.StageReplica | distributed-fs/managed_file_service.go:243-303 | the result is the verified assembly of whatever the node answered, and of its contents if reads work |
| Transfer.CopyChunk | distributed-fs/object.go:92-115 | one chunk is copied and verified, or removed again on mismatch |
| Transfer.DeleteChunkObjects | distributed-fs/object.go:125-129 | with working deletes exactly the named objects disappear from the node |
| Transfer.ReplicateChunks | distributed-fs/object.go:87-123 | success means every chunk on the target has manifest size and hash and their concatenation the file checksum; for each way of stopping it says what is left: an unreadable source leaves the chunks before it, every other failure with working deletes none of them, a refused write at most its own place; a faithful source is followed exactly as far as its answers fit the manifest; only places of that target, key and version change |
| Transfer.LeftoverExact | distributed-fs/object.go:91-121 | with working deletes a chunk copied before a failure remains if and only if the failure was a read of the source |
| Transfer.LeftoverPredicted | distributed-fs/object.go:91-121 | with working nodes a chunk before the first one whose source answer does not fit the manifest remains after a failure if and only if that first one is absent at the source |
| Transfer.HalfCopyStays | distributed-fs/object.go:93-96 | a two-chunk copy whose source lacks the second chunk fails and leaves the first on the target, with every node working |
| Transfer.Replicate | distributed-fs/object.go:62-85 | the same through the dispatch on the manifest; for an object stored whole, with working nodes it succeeds if and only if the source has it with the right checksum, and what each failure leaves |
| Transfer.RoundTrip | distributed-fs/managed_file_service.go:214-397 | staging, writing and reading back gives the original bytes for every input and every split |
| Transfer.WrittenHolds | distributed-fs/managed_file_service.go:214-240 | a node on which all chunks of the manifest were written holds the file |
| Service.ManagedFileService.constructor | distributed-fs/managed_file_service.go:34-51 | a service over empty stores and the given nodes |
| Service.ManagedFileService.Put | distributed-fs/managed_file_service.go:59-85 | success publishes the next version with a record that describes the bytes, queues its copies and leaves the primary holding the file; failure changes neither metadata nor queue unless the commit is refused for a nameless primary, and then the record stays, its chunks written and removed again; with working deletes a failure leaves no chunk; only the primary's places of that version change |
| Service.EmptyIdIsPrimary | distributed-fs/replication.go:86-124 | the primary of a plan has the empty ID if and only if a healthy node is registered under it |
| Placement.PlannedFileHasTasks | distributed-fs/replication.go:116-124 | a record published from a plan with a named primary always has its copy list, so committing cannot fail after publishing |
| Service.ManagedFileService.Get | distributed-fs/managed_file_service.go:88-112 | the answer comes from the first candidate in order that verifies, and nothing but the ones before it changes; with working reads each of these becomes missing if the first object that is not as it should be is absent, and stale if it differs; bytes are the described ones; it then succeeds if and only if a healthy replica holds the file; ErrNoReadableReplicas leaves none healthy |
| Service.DemotedFile | distributed-fs/managed_file_service.go:94-103 | demoting touches the tried replicas of that file and nothing else, and leaves none of them healthy |
| Service.DemotedStates | distributed-fs/managed_file_service.go:96-101 | a replica whose read failed on a checksum is stale afterwards, one whose read failed otherwise missing |
| Service.ReadFailure | distributed-fs/managed_file_service.go:243-303 | a faithful replica that cannot be read fails with an I/O error if the first object that is not as it should be is absent, and with a mismatch otherwise |
| Service.PutRecord | distributed-fs/coordinator.go:67-118 | the record a Put publishes: next version, creation time kept, the first healthy nodes as replicas, the first one primary and healthy, the others pending |
| Service.NoneLeftHealthy | distributed-fs/managed_file_service.go:94-111 | once every candidate has failed no replica of the file is healthy |
| Service.ManagedFileService.Delete | distributed-fs/managed_file_service.go:115-136 | the record keeps its content and replica nodes, takes the next version, is deleted and has every replica marked deleted; reads are refused from then on; with working deletes exactly the objects of its replicas disappear |
| Service.ManagedFileService.WorkOnce | distributed-fs/worker.go:27-54 | of the runnable entries the one that comes first in the schedule is started, copied, and ended together with the state of its target; a successful copy leaves the target holding the version; a good source and working nodes mean success |
| Service.ManagedFileService.Drain | distributed-fs/main.go:293-297 | the drain loop terminates; each copy it makes takes one entry off the waiting ones for good; entries not waiting at the start stay as they are; it stops for lack of work only if nothing is pending; with working nodes, honest replicas and good waiting copies it stops for no other reason and leaves every replica alone to which no copy waited |
| Service.OneLessWaiting | distributed-fs/main.go:293-297 | one successful round strictly shrinks the set of waiting entries |
| Coordinator.MetadataCoordinator.constructor | distributed-fs/coordinator.go:43-59 | empty stores, replica count 3 if 0 is given |
| Coordinator.MetadataCoordinator.PrepareWrite | distributed-fs/coordinator.go:67-91 | the plan of the healthy nodes and the next version, without changing anything |
| Coordinator.MetadataCoordinator.CommitWrite | distributed-fs/coordinator.go:94-118 | the record is stored, then its copies are queued or the refusal returned |
| Coordinator.MetadataCoordinator.FinishReplication | distributed-fs/coordinator.go:130-141 | done on the queue, then the target healthy, with the errors of either |
| Coordinator.MetadataCoordinator.FailReplication | distributed-fs/coordinator.go:149-160 | failed on the queue, then the target missing, with the errors of either |
| Coordinator.MetadataCoordinator.ReadCandidates | distributed-fs/coordinator.go:163-184 | not found, deleted, no readable replica, or the healthy replicas with the primary first |
| Coordinator.MetadataCoordinator.PlanRepair | distributed-fs/coordinator.go:207-239 | nothing without a healthy node; otherwise every repairable file is extended and exactly the copies it needs are returned and queued |
| Coordinator.MetadataCoordinator.RepairExistingReplicas | distributed-fs/coordinator.go:241-261 | exactly one copy for each replica that needs one, in whatever order replicas are visited |
| Coordinator.MetadataCoordinator.RepairMissingReplicas | distributed-fs/coordinator.go:263-293 | the first nodes without a replica, as far as there is room, are added as pending and get a copy each; without a record under the key nothing happens |
| Coordinator.HealthyReplicasOf | distributed-fs/metadata.go:293-304 | the sorted listing of the healthy replicas |
| Coordinator.FirstHealthyReplica | distributed-fs/coordinator.go:315-321 | the least healthy replica, or none |
| Repair.RepairedCount | distributed-fs/coordinator.go:263-293 | the number of replicas after the pass |
| Repair.RepairedReplicas | distributed-fs/coordinator.go:241-293 | after the pass exactly the targets of the pass need a copy, and no old replica has changed |
| Repair.SourceIsHealthy | distributed-fs/coordinator.go:315-321 | the source is healthy and least among the healthy replicas |
| Repair.RepairTasksExact | distributed-fs/coordinator.go:207-293 | the tasks of a pass are exactly the untried, due copies of its repairable files, from the least healthy replica to each target of the pass |
| Repair.NewTargetsFirst | distributed-fs/coordinator.go:269-291 | new replicas go to the first nodes in ID order that have none; every node passed over comes later |
| Placement.Plan | distributed-fs/replication.go:86-113 | the first replicaCount of the sorted healthy nodes, the first one primary |
| Placement.PlanExact | distributed-fs/replication.go:86-113 | for any list of nodes, repeated IDs included: a plan exists if and only if some node is healthy, takes as many healthy nodes as wanted and available, in ID order, and passes over none that comes before one it takes |
| Placement.TasksForFile | distributed-fs/replication.go:116-154 | the copy list in node order, or ErrPrimaryUnavailable |
| Placement.TasksOfExact | distributed-fs/replication.go:116-154 | the copy list holds, in node order, exactly one entry for each other replica that is pending, stale or missing; each is pending, untried, due at once, without lease or error, and carries the identity, checksum and manifest of the file |
| Placement.PrioritizePrimary | distributed-fs/coordinator.go:295-313 | the primary's replica first, the others in order |
| Placement.PrioritizedPermutes | distributed-fs/coordinator.go:295-313 | the result is a permutation, with the primary first whenever it is among the replicas |
| Placement.ReadCandidatesExact | distributed-fs/coordinator.go:163-184 | there are candidates if and only if some replica is healthy; they are exactly the healthy replicas, each once, a healthy primary first |
| Placement.ReadOrder | distributed-fs/coordinator.go:295-313 | after a healthy primary the candidates come in node order, no node twice |
| Placement.ReadRefusals | distributed-fs/coordinator.go:163-184 | which of the three refusals a read gets, each if and only if |
| Queue.MemoryQueue.Enqueue | distributed-fs/replication.go:171-179 | known IDs are passed over, others inserted |
| Queue.MemoryQueue.Pending | distributed-fs/replication.go:182-192 | exactly the runnable entries, unset start times first, then by start time, then by ID, independent of map order |
| Queue.MemoryQueue.MarkRunning | distributed-fs/replication.go:195-207 | state, attempts, lease and stamp of one entry; ErrTaskNotFound otherwise |
| Queue.MemoryQueue.MarkDone | distributed-fs/replication.go:210-222 | state, lease, start time, error and stamp of one entry |
| Queue.MemoryQueue.MarkFailed | distributed-fs/replication.go:225-233 | dead or pending after a delay, by the number of attempts |
| Queue.MemoryQueue.RequeueExpiredRunning | distributed-fs/replication.go:236-249 | exactly the running entries whose lease is over change, and they are returned in schedule |
| Queue.EnqueueKeeps | distributed-fs/replication.go:171-179 | queued entries never change, the first of equal IDs wins, nothing else is added |
| Queue.HeadComesFirst | distributed-fs/replication.go:182-192 | the head of Pending is runnable, and every other runnable entry has a later start time, or the same and a greater ID; unset start times come first |
| Queue.SortedInSchedule | distributed-fs/replication.go:310-323 | sorting puts entries with unset start times first, then earlier before later, then by ID |
| Queue.QueueInSchedule | distributed-fs/replication.go:182-249 | Pending and what a lease sweep returns are in that order |
| Queue.StartExact | distributed-fs/replication.go:195-207 | a start counts one attempt, gives a lease of 30 seconds and changes nothing else but state and stamp |
| Queue.DoneExact | distributed-fs/replication.go:210-222 | a finished entry is done without lease, start time or error, attempts kept |
| Queue.FailExact | distributed-fs/replication.go:268-283 | a failed entry is dead from the fifth attempt on and before that pending after 2, 4, 8 or 16 seconds, with the cause and without lease |
| Queue.SweepExact | distributed-fs/replication.go:236-249 | a sweep changes exactly the running entries with a set lease that is over: dead from the fifth attempt on, else due at once, with the text of a lost lease |
| Queue.RestoreFields | distributed-fs/replication_disk.go:48-55 | reopening makes running and failed entries due at once and keeps attempts and error |
| Queue.BackoffExact | distributed-fs/replication.go:299-308 | up to 33 attempts the 64-bit computation gives 2^n seconds capped at 60 |
| Queue.BackoffOverflows | distributed-fs/replication.go:299-308 | the 64-bit product is the true one if and only if there were at most 33 attempts |
| Queue.RetryGate | distributed-fs/replication.go:268-283 | a failed entry is dead if and only if it had five attempts, and otherwise becomes runnable exactly 2^n seconds later |
| Queue.LeaseWindow | distributed-fs/replication.go:285-297 | a started entry is left alone exactly for 30 seconds, then pending at once or dead |
| Queue.RetriesSpreadOut | distributed-fs/replication.go:264-308 | if attempts a to a+k-1 fail, the next one starts at least 2^(a+k) - 2^a seconds after the first failure, and a+k is at most 5 |
| Metadata.MetadataStore.UpsertNode | distributed-fs/metadata.go:89-101 | the node is healthy with a fresh heartbeat, everything else as before |
| Metadata.MetadataStore.MarkExpiredNodes | distributed-fs/metadata.go:104-115 | exactly the nodes with an old heartbeat go down |
| Metadata.MetadataStore.HealthyNodes | distributed-fs/metadata.go:118-132 | the sorted listing of the healthy nodes |
| Metadata.MetadataStore.Nodes | distributed-fs/metadata.go:135-147 | the sorted listing of all nodes |
| Metadata.MetadataStore.BeginFileVersion | distributed-fs/metadata.go:150-184 | a live record with the next version, creation time kept, primary healthy, others pending |
| Metadata.MetadataStore.MarkReplica | distributed-fs/metadata.go:196-218 | one replica changes state, or ErrMetadataNotFound, or ErrReplicaNotFound |
| Metadata.MetadataStore.Tombstone | distributed-fs/metadata.go:221-242 | next version, deleted, every replica deleted |
| Metadata.MetadataStore.ListFiles | distributed-fs/metadata.go:257-269 | the sorted listing of the records |
| Metadata.MetadataStore.AddReplica | distributed-fs/metadata.go:272-290 | one replica is set, or ErrMetadataNotFound |
| Metadata.HealthyNodesListing | distributed-fs/metadata.go:118-132 | the listing holds a node if and only if it is registered and healthy, in strict ID order |
| Metadata.HealthyReplicasListing | distributed-fs/metadata.go:293-304 | the same for the healthy replicas of a file |
| Metadata.HeartbeatWindow | distributed-fs/metadata.go:89-115 | a node survives the expiry pass if and only if its heartbeat is no older than the time to live, and a node that is down stays down until it sends one |
| Metadata.TombstoneExact | distributed-fs/metadata.go:221-242 | every field of the record after a tombstone, and that no other record changes |
| Metadata.RewriteExact | distributed-fs/metadata.go:150-184 | every field of a new version: next number, creation time kept on a rewrite, primary healthy, other replicas pending |
| Metadata.MarkExact | distributed-fs/metadata.go:196-218 | marking changes the state and stamp of one existing replica, or returns the error that applies |
| Metadata.AddExact | distributed-fs/metadata.go:272-290 | adding sets one replica, new or not, and nothing else but stamps |
| Metadata.NodesExact | distributed-fs/metadata.go:89-115 | a heartbeat records address and time; an expiry pass touches nothing but the state of late nodes |
| Metadata.Listings | distributed-fs/metadata.go:135-269 | the listings of nodes and files hold every record once, in key order |
| Ordering.CollectSorted | distributed-fs/metadata.go:118-132 | ranging over a map in any order and sorting gives the one sorted listing |
| Ordering.FilterSortedSeq | distributed-fs/metadata_disk.go:90-103 | sort-then-filter equals filter-then-sort |
| Ordering.StringLessExact | distributed-fs/metadata.go:128-131 | strings compare by the first different character, a proper prefix first |
| Ordering.SortSliceInOrder | distributed-fs/replication.go:98-100 | sorting by a string key orders any list, repeated keys included |
| Ordering.SortSlicePermutes | distributed-fs/replication.go:98-100 | sorting rearranges and loses nothing |
| DiskQueue.OpenDiskQueue | distributed-fs/replication_disk.go:19-31 | opening equals one pure restart step on the decoded entries, or fails if one cannot be decoded |
| DiskQueue.RestoreExact | distributed-fs/replication_disk.go:40-58 | a restart changes exactly the running and failed entries, keeps attempts, is idempotent and leaves nothing for the lease sweep |
| DiskQueue.DiskReplicationTaskQueue.RestoreRetryableTasks | distributed-fs/replication_disk.go:40-58 | the restart step, all or nothing |
| DiskQueue.DiskReplicationTaskQueue.Enqueue | distributed-fs/replication_disk.go:61-74 | all entries as in memory, except that an unreadable record blocks its ID, or none and an error, the latter exactly if some ID cannot be a key |
| DiskQueue.DiskReplicationTaskQueue.Pending | distributed-fs/replication_disk.go:77-95 | the same sequence as in memory; with an unreadable record the error and the sorted runnable entries before it in key order |
| DiskQueue.DiskReplicationTaskQueue.MarkRunning | distributed-fs/replication_disk.go:98-107 | same state and result as in memory |
| DiskQueue.DiskReplicationTaskQueue.MarkDone | distributed-fs/replication_disk.go:110-119 | same state and result as in memory |
| DiskQueue.DiskReplicationTaskQueue.MarkFailed | distributed-fs/replication_disk.go:122-126 | same state and result as in memory |
| DiskQueue.DiskReplicationTaskQueue.UpdateTask | distributed-fs/replication_disk.go:171-190 | one read-modify-write that changes one entry and rolls back on error |
| DiskQueue.DiskReplicationTaskQueue.RequeueExpiredRunning | distributed-fs/replication_disk.go:129-152 | same state and sorted result as in memory; with an unreadable record the error, the entries requeued before it, and no change |
| DiskMetadata.DiskMetadataStore.constructor | distributed-fs/metadata_disk.go:23-38 | the store starts from the buckets found on disk |
| DiskMetadata.DiskMetadataStore.UpsertNode | distributed-fs/metadata_disk.go:56-68 | as in memory for an ID that fits, else an error and no change |
| DiskMetadata.DiskMetadataStore.MarkExpiredNodes | distributed-fs/metadata_disk.go:71-87 | as in memory, all or nothing |
| DiskMetadata.DiskMetadataStore.HealthyNodes | distributed-fs/metadata_disk.go:90-103 | filtering the sorted listing gives the listing of the in-memory store |
| DiskMetadata.DiskMetadataStore.Nodes | distributed-fs/metadata_disk.go:106-122 | as in memory; with an unreadable record the error and the sorted nodes before it in key order |
| DiskMetadata.DiskMetadataStore.BeginFileVersion | distributed-fs/metadata_disk.go:125-171 | as in memory for a key that fits, else an error and no change |
| DiskMetadata.DiskMetadataStore.NextVersion | distributed-fs/metadata_disk.go:174-187 | as in memory |
| DiskMetadata.DiskMetadataStore.MarkReplica | distributed-fs/metadata_disk.go:190-219 | same record, state and error as in memory |
| DiskMetadata.DiskMetadataStore.Tombstone | distributed-fs/metadata_disk.go:222-250 | same record, state and error as in memory |
| DiskMetadata.DiskMetadataStore.GetFile | distributed-fs/metadata_disk.go:253-262 | as in memory |
| DiskMetadata.DiskMetadataStore.ListFiles | distributed-fs/metadata_disk.go:265-281 | as in memory; with an unreadable record the error and the sorted files before it in key order |
| DiskMetadata.DiskMetadataStore.AddReplica | distributed-fs/metadata_disk.go:284-310 | same record, state and error as in memory |
| DiskMetadata.DiskMetadataStore.PutFile | distributed-fs/metadata_disk.go:330-336 | one record is committed, or refused for its key |
| DiskMetadata.HealthyOfAll | distributed-fs/metadata_disk.go:90-103 | the filtered listing of all nodes is the listing of the healthy ones |
| Lockstep.RunBothQueues | distributed-fs/replication_disk.go:61-190 | any run of storable calls gets equal answers from the persistent and the in-memory queue and leaves equal entries |
| Lockstep.RunBothStores | distributed-fs/metadata_disk.go:56-310 | any run of storable calls gets equal answers from the persistent and the in-memory metadata and leaves equal records |
| Bolt.ScanSorted | distributed-fs/metadata_disk.go:106-122 | a scan lists exactly the kept records before the first unreadable one, sorted, and fails if and only if there is one |
| Bolt.KeyLimits | distributed-fs/metadata_disk.go:330-336 | the keys a bucket accepts are 1 to 32768 long |
| Bolt.PutDecoded | distributed-fs/metadata_disk.go:330-336 | a put changes one decoded record and keeps the rest, readable or not |
| Cipher.CopyStream | distributed-fs/crypto.go:33-59 | the rest of the reader goes through the key stream in order, whatever the read sizes; the count is block size plus bytes; read and write errors are returned |
| Cipher.CtrStream.XorKeyStream | distributed-fs/crypto.go:41-41 | a piece of any length continues the key stream where the last piece ended |
| Cipher.XoredTwice | distributed-fs/crypto.go:77-94 | the same key stream undoes itself |
| Cipher.ReadFull | distributed-fs/crypto.go:88-91 | succeeds if and only if enough bytes are left, whatever the read sizes, and takes exactly that many; otherwise the read error, the end of an empty source, or an unexpected end |
| Cipher.CopyEncrypt | distributed-fs/crypto.go:62-79 | the initialization vector, then byte j of the plaintext combined with byte j % 16 of the cipher of the block whose value is the vector plus j / 16 modulo 2^128 |
| Cipher.CopyDecrypt | distributed-fs/crypto.go:82-95 | succeeds on a reliable writer if and only if key size, length and end of stream allow, and then writes the rest combined with the key stream of its first block in the same way; otherwise the error of the first of these that fails |
| Cipher.CipherRoundTrip | distributed-fs/crypto.go:33-95 | decrypting after encrypting gives the plaintext for any two splits of the reads, and both return block size plus plaintext length |
| Cipher.IncrementAddsOne | distributed-fs/crypto.go:77-77 | the counter block increments by one as a big-endian number and wraps around |
| Cipher.CounterValue | distributed-fs/crypto.go:77-77 | counter block n is the initialization vector plus n, big-endian, modulo 2^128 |
| Cipher.XoredInCounterMode | distributed-fs/crypto.go:77-78 | the key stream is that of counter mode from the vector itself on |

## Left out

- HTTP handlers, the HTTP object client, the command line and the P2P demo: plumbing and sockets.
- store.go: the object store is a map with possible failures. A successful write is assumed to have stored what it was given.
- Metrics and task statistics: counting only.
- Temporary files, seeking and closing: a staged file is a byte sequence; failures of these calls, and of closing a source after a chunk was written, are not told apart from failed reads and writes.
- Integer widths: versions, sizes, attempts and times are unbounded, except in the backoff, which is computed in 64 bits.
- Clock: each operation reads the clock once (`WorkOnce` twice); the source reads it several times within one operation. Times are UTC nanoseconds with 0 for the zero time.
- Aliasing and cloning of records: records are values, so what the clone functions protect against cannot arise.
- Sessions.Serve: calls come one after the other; interleaved calls are covered by the theorems of `Cluster` and `Durability`, not by a method.
- Backends: the coordinator and service classes run over the in-memory store and queue; the persistent ones are tied to these call by call (`Lockstep`).
- Pending followed by MarkRunning: one step for the single worker; two workers that take the same entry are not modelled.
- Mutexes: methods are atomic; interleaving is modelled by steps in `Cluster` and `Durability`. Data races on the unlocked in-memory queue are not modelled.
- Replica count: at least 1 (0 becomes 3 as in the source); the source panics on a negative one.
- Strings are sequences of characters compared one by one; byte-level UTF-8 and the JSON encoding are behind the codec parameter, which is assumed to round-trip. A key's length counts characters.
- bbolt: transactions are atomic, a scan sees the bucket as it was when the scan began, keys are 1 to 32768 long, and value size and disk errors are not modelled.
- Sorting: `Ordering.SortSlice` stands for the library sort. Where IDs are distinct the result is unique; nodes that share an ID may come out of the library sort in another order.
- BeginWrite: the test-only shortcut of PrepareWrite and CommitWrite without a manifest.
- Eventual repair without conditions, and attempt bounds for several workers: the code does not guarantee them (see above).
- Transfer.CopyChunk: the body of the loop of replicateChunks, split out; it also stands for a write that fails after storing the bytes.
- Lifecycle.WorkBounded: one worker, with the lease sweep between its rounds as in the manager loop; a worker that returns on a queue error and leaves its entry running is counted by `revived`.
- Durability.HealthyIsReadable: assumes that nodes keep what was written to them, that a copy is one step unless the manager crashes inside it, and that there is one worker; versions have a manifest (`Histories.ReachableManifests`).
- Cipher.CopyEncrypt: the initialization vector is a parameter instead of random; the cipher object of the standard library is modelled from section 6.5 of NIST SP 800-38A.

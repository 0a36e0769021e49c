/**
 * The step machine together with the storage nodes: which replicas really hold what the metadata says they hold.
 * Nodes keep what was written to them; their operations may fail. There is one replication worker, whose copy is one
 * step unless the manager crashes inside it, and whose other steps interleave with everything else.
 */
module Durability {
  import opened Types
  import opened Chunking
  import opened Objects
  import opened Metadata
  import opened Queue
  import opened Naming
  import opened Placement
  import opened Cluster
  import opened Bolt

  datatype Worker = Waiting | Copying(task: ReplicationTask) | Copied(task: ReplicationTask)

  datatype World = World(ctl: State, contents: Contents, worker: Worker)

  const EMPTY_WORLD := World(INIT, map[], Waiting)

  datatype Move =
    | Control(step: Step)
    | WriteChunk                                                    // one successful chunk write of a Put
    | RefuseCommit(removed: set<Place>)                             // CommitWrite fails after publishing; Put deletes
    | AbortPut(after: Contents)                                     // a Put fails before it publishes
    | Scrub(node: string, after: Contents)                          // a Delete removes old objects from one node
    | WorkStart(now: Time)
    | WorkCopied(after: Contents)                                   // Replicate succeeds
    | WorkFailed(after: Contents, cause: string, now: Time)         // Replicate fails, then FailReplication
    | WorkFinish(now: Time)                                         // FinishReplication
    | Crash(put: Contents, after: Contents, now: Time)              // in the middle of a chunk write and of a copy

  /** Control steps that are not part of another move. Only FinishReplication marks a replica healthy. */
  predicate Benign(step: Step) {
    !step.PutChunk? && !step.PutFail? && !step.Restart? && !(step.Mark? && step.state == ReplicaHealthy)
  }

  /**
   * CommitWrite can fail after it has published f: the primary has no name, or the persistent queue cannot store the
   * ID of one of its copies.
   */
  ghost predicate Refusable(f: FileMetadata) {
    f.primary == "" ||
    exists n <- f.replicas ::
      n != f.primary && NeedsCopy(f.replicas[n].state) && !KeyFits(TaskId(f.key, f.version, f.primary, n))
  }

  /**
   * Refusable is what the code runs into: the copies of f cannot be listed, or one of them cannot be queued on disk.
   */
  lemma RefusableExact(f: FileMetadata, now: Time)
    requires FileOk(f) && f.primary in f.replicas
    ensures Refusable(f) <==> TasksOf(f, now).Err? || exists t <- TasksOf(f, now).value :: !KeyFits(t.id)
  {
    hide TaskId, CopyTargets, TasksFrom, FileOk, KeyFits;
    if f.primary != "" {
      var ts := TasksOf(f, now).value;
      if n :| n in f.replicas && n != f.primary && NeedsCopy(f.replicas[n].state)
              && !KeyFits(TaskId(f.key, f.version, f.primary, n)) {
        TasksOfCover(f, now, CopyTask(f, f.primary, n, now));
        assert CopyTask(f, f.primary, n, now) in ts;
      }
      if t :| t in ts && !KeyFits(t.id) { TasksOfCover(f, now, t); }
    }
  }

  /** The places a Put that has not published may touch. */
  ghost function PutPlaces(w: Writer): set<Place> {
    if w.Writing? then Places(w.prep.primary.id, w.prep.key, w.prep.version, w.prep.chunks) else {}
  }

  /** The places a running copy may be in the middle of overwriting. */
  ghost function CopyPlaces(worker: Worker): set<Place> {
    if worker.Copying? then Places(worker.task.target, worker.task.key, worker.task.version, worker.task.chunks) else {}
  }

  /** What a crash can leave: anything where the running Put writes, then anything where the running copy writes. */
  ghost predicate Torn(w: World, put: Contents, after: Contents) {
    SameOutside(w.contents, put, PutPlaces(w.ctl.writer)) && SameOutside(put, after, CopyPlaces(w.worker))
  }

  /** The running Put has published, its commit can be refused, and removed are chunks of it on the primary. */
  ghost predicate Refuses(w: World, removed: set<Place>) {
    && w.ctl.writer.Published? && Refusable(w.ctl.writer.file)
    && var f := w.ctl.writer.file;
    removed <= Places(f.primary, f.key, f.version, f.chunks)
  }

  ghost function Move1(h: Hasher, replicaCount: int, w: World, move: Move): World
    requires replicaCount >= 1
  {
    var s := w.ctl;
    match move
    case Control(step) => if Benign(step) then w.(ctl := Next(h, replicaCount, s, step)) else w
    case WriteChunk =>
      if s.writer.Writing? && s.writer.written < |s.writer.prep.chunks| then
        var (prep, i) := (s.writer.prep, s.writer.written);
        w.(ctl := Next(h, replicaCount, s, PutChunk),
           contents := w.contents[ChunkPlace(prep.primary.id, prep.key, prep.version, i) := Slice(s.writer.data, i)])
      else w
    case RefuseCommit(removed) =>
      if Refuses(w, removed) then w.(ctl := Next(h, replicaCount, s, PutFail), contents := w.contents - removed) else w
    case AbortPut(after) =>
      if (s.writer.Staged? || s.writer.Planned? || s.writer.Writing?)
        && SameOutside(w.contents, after, PutPlaces(s.writer))
      then w.(ctl := Next(h, replicaCount, s, PutFail), contents := after) else w
    case Scrub(node, after) =>
      if s.writer.Scrubbing?
         && SameOutside(w.contents, after, Places(node, s.writer.file.key, s.writer.file.version, s.writer.file.chunks))
      then w.(contents := after) else w
    case WorkStart(now) =>
      if w.worker.Waiting? && s.backlog.Pending(now) != [] then
        var id := s.backlog.Pending(now)[0].id;
        var s' := Next(h, replicaCount, s, StartTask(id, now));
        if id in s'.backlog.tasks then w.(ctl := s', worker := Copying(s'.backlog.tasks[id])) else w
      else w
    case WorkCopied(after) =>
      if w.worker.Copying? && CopyOutcome(h, w.contents, after, w.worker.task, true)
      then w.(contents := after, worker := Copied(w.worker.task)) else w
    case WorkFailed(after, cause, now) =>
      if w.worker.Copying? && CopyOutcome(h, w.contents, after, w.worker.task, false) then
        var t := w.worker.task;
        var s1 := Next(h, replicaCount, s, FailTask(t.id, cause, now));
        World(Next(h, replicaCount, s1, Mark(t.key, t.target, ReplicaMissing, now)), after, Waiting)
      else w
    case WorkFinish(now) =>
      if w.worker.Copied? then
        var t := w.worker.task;
        var s1 := Next(h, replicaCount, s, FinishTask(t.id, now));
        w.(ctl := Next(h, replicaCount, s1, Mark(t.key, t.target, ReplicaHealthy, now)), worker := Waiting)
      else w
    case Crash(put, after, now) =>
      if Torn(w, put, after) then World(Next(h, replicaCount, s, Restart(now)), after, Waiting) else w
  }

  ghost function History(h: Hasher, replicaCount: int, w: World, moves: seq<Move>): World
    requires replicaCount >= 1
  {
    if moves == [] then w
    else Move1(h, replicaCount, History(h, replicaCount, w, moves[..|moves| - 1]), moves[|moves| - 1])
  }

  // ----- Invariant -----

  /** node holds whatever was committed as this version. */
  ghost predicate HoldsCommitted(w: World, node: string, key: string, version: nat) {
    forall data :: Committed(key, version, data) in w.ctl.log ==> Holds(w.contents, node, key, version, data)
  }

  ghost predicate IsHealthy(m: Meta, key: string, node: string) {
    key in m.files && !m.files[key].deleted && node in m.files[key].replicas
    && m.files[key].replicas[node].state == ReplicaHealthy
  }

  /** Every healthy replica of a live file holds all chunks of the current version. */
  ghost predicate HealthyHold(w: World) {
    forall key, node :: IsHealthy(w.ctl.meta, key, node) ==> HoldsCommitted(w, node, key, w.ctl.meta.Version(key))
  }

  /** The chunks the running Put has written so far are on the primary. */
  ghost predicate PutHolds(w: World) {
    w.ctl.writer.Writing? ==>
      var prep := w.ctl.writer.prep;
      forall i :: 0 <= i < w.ctl.writer.written ==>
        Lookup(w.contents, ChunkPlace(prep.primary.id, prep.key, prep.version, i)) == Ok(Slice(w.ctl.writer.data, i))
  }

  ghost predicate WorkerOk(h: Hasher, w: World) {
    w.worker.Waiting? || TaskOk(h, w.ctl.log, w.ctl.meta, w.worker.task)
  }

  ghost predicate WorldInv(h: Hasher, w: World) {
    Inv(h, w.ctl) && HealthyHold(w) && PutHolds(w) && WorkerOk(h, w)
  }

  /** A finished copy of the current version is still there. Only a refused commit can take it away. */
  ghost predicate CopyHeld(w: World) {
    w.worker.Copied? && w.worker.task.version == w.ctl.meta.Version(w.worker.task.key) ==>
      HoldsCommitted(w, w.worker.task.target, w.worker.task.key, w.worker.task.version)
  }

  // ----- Frames -----

  /** Commits of versions up to the current one are never added later. */
  ghost predicate OldCommits(s: State, s': State) {
    forall key, v: nat, data :: v <= s.meta.Version(key) && Committed(key, v, data) in s'.log ==>
      Committed(key, v, data) in s.log
  }

  ghost predicate VersionsGrow(m: Meta, m': Meta) {
    forall key :: m.Version(key) <= m'.Version(key)
  }

  lemma LaterEvents(log: seq<Event>, n: nat, i: nat)
    requires LogOrdered(log) && n <= i < |log|
    ensures log[i].version > Count(log[..n], log[i].key)
  {
    CountMonotone(log, n, i, log[i].key);
    assert log[..i + 1] == log[..i] + [log[i]];
    CountSnoc(log[..i], log[i], log[i].key);
  }

  lemma LogGrows(h: Hasher, s: State, s': State)
    requires Inv(h, s) && Inv(h, s') && s.log <= s'.log
    ensures OldCommits(s, s') && VersionsGrow(s.meta, s'.meta)
  {
    hide LiveOk, TasksOk, ReadersOk, RepairsOk, WriterOk, Meta.Valid, Backlog.Valid, LogOrdered, Count, Meta.Version;
    var n := |s.log|;
    assert s'.log[..n] == s.log && s'.log[..|s'.log|] == s'.log;
    forall key ensures s.meta.Version(key) <= s'.meta.Version(key) { CountMonotone(s'.log, n, |s'.log|, key); }
    forall key, v: nat, data | v <= s.meta.Version(key) && Committed(key, v, data) in s'.log
      ensures Committed(key, v, data) in s.log
    {
      var i :| 0 <= i < |s'.log| && s'.log[i] == Committed(key, v, data);
      if n <= i { LaterEvents(s'.log, n, i); }
    }
  }

  /** What a node holds of a version depends only on the places of that version on that node. */
  lemma HoldsCommittedKept(w: World, w': World, node: string, key: string, version: nat)
    requires HoldsCommitted(w, node, key, version) && OldCommits(w.ctl, w'.ctl) && version <= w.ctl.meta.Version(key)
    requires forall data :: Holds(w.contents, node, key, version, data) ==> Holds(w'.contents, node, key, version, data)
    ensures HoldsCommitted(w', node, key, version)
  {
  }

  /** Every healthy live replica after the step was one before it, of the same version. */
  ghost predicate NoNewHealthy(m: Meta, m': Meta) {
    forall key, node :: IsHealthy(m', key, node) ==> IsHealthy(m, key, node) && m'.Version(key) == m.Version(key)
  }

  lemma HealthyKept(w: World, w': World)
    requires HealthyHold(w) && w'.contents == w.contents && OldCommits(w.ctl, w'.ctl)
      && NoNewHealthy(w.ctl.meta, w'.ctl.meta)
    ensures HealthyHold(w')
  {
    hide Holds, IsHealthy;
    forall key, node | IsHealthy(w'.ctl.meta, key, node)
      ensures HoldsCommitted(w', node, key, w'.ctl.meta.Version(key))
    {
      HoldsCommittedKept(w, w', node, key, w.ctl.meta.Version(key));
    }
  }

  lemma WorkerKept(h: Hasher, w: World, w': World)
    requires WorkerOk(h, w) && w'.worker == w.worker && w'.contents == w.contents
    requires OldCommits(w.ctl, w'.ctl) && VersionsGrow(w.ctl.meta, w'.ctl.meta) && w.ctl.log <= w'.ctl.log
    ensures WorkerOk(h, w') && (CopyHeld(w) ==> CopyHeld(w'))
  {
    hide Holds, HoldsCommitted, TaskOk;
    if !w.worker.Waiting? {
      var t := w.worker.task;
      assert Grows(w.ctl.log, w.ctl.meta, w'.ctl.log, w'.ctl.meta);
      TaskGrows(h, w.ctl.log, w.ctl.meta, w'.ctl.log, w'.ctl.meta, t);
      TaskVersion(h, w.ctl, t);
      if CopyHeld(w) && w.worker.Copied? && t.version == w'.ctl.meta.Version(t.key) {
        HoldsCommittedKept(w, w', t.target, t.key, t.version);
      }
    }
  }

  lemma TaskVersion(h: Hasher, s: State, t: ReplicationTask)
    requires TaskOk(h, s.log, s.meta, t)
    ensures t.version <= s.meta.Version(t.key)
  {
  }

  // ----- Control steps -----

  lemma BenignLog(h: Hasher, replicaCount: int, s: State, step: Step)
    requires replicaCount >= 1
    ensures s.log <= Next(h, replicaCount, s, step).log
  {
    hide TasksOf, PlanOf, FileOf, ReadCandidates, Meta.HealthyNodes, Meta.ListFiles;
  }

  /** Except for publishing, no control step makes a replica healthy or a chunk written. */
  lemma BenignHealthy(h: Hasher, replicaCount: int, s: State, step: Step)
    requires replicaCount >= 1 && s.meta.Valid() && (Benign(step) || step.PutChunk? || step.PutFail? || step.Restart?)
    requires !step.PutPublish?
    ensures NoNewHealthy(s.meta, Next(h, replicaCount, s, step).meta)
  {
    hide TasksOf, PlanOf, FileOf, ReadCandidates, Meta.HealthyNodes, Meta.ListFiles, Meta.Valid, RepairTask,
         NoNewHealthy, Meta.MarkReplica, Meta.AddReplica, Meta.Tombstone, Meta.UpsertNode, Meta.MarkExpiredNodes,
         Backlog.Enqueue, Backlog.MarkRunning, Backlog.MarkDone, Backlog.MarkFailed, Backlog.RequeueExpiredRunning,
         Backlog.Restore;
    SameHealthy(s.meta);
    match step
    case Heartbeat(id, addr, now) => NodesNotHealthier(s.meta, id, addr, 0, now);
    case ExpireNodes(ttl, now) => NodesNotHealthier(s.meta, "", "", ttl, now);
    case DeleteTombstone(now) => if s.writer.Deleting? { TombstoneNotHealthier(s.meta, s.writer.file.key, now); }
    case Mark(key, node, state, now) => MarkNotHealthier(s.meta, key, node, state, now);
    case RepairAdd(key, node, now) => MarkNotHealthier(s.meta, key, node, ReplicaPending, now);
    case _ =>
  }

  lemma SameHealthy(m: Meta)
    ensures NoNewHealthy(m, m)
  {
  }

  lemma NodesNotHealthier(m: Meta, id: string, addr: string, ttl: int, now: Time)
    ensures NoNewHealthy(m, m.UpsertNode(id, addr, now)) && NoNewHealthy(m, m.MarkExpiredNodes(ttl, now))
  {
  }

  lemma TombstoneNotHealthier(m: Meta, key: string, now: Time)
    ensures NoNewHealthy(m, m.Tombstone(key, now).0)
  {
  }

  lemma MarkNotHealthier(m: Meta, key: string, node: string, state: ReplicaState, now: Time)
    requires state != ReplicaHealthy
    ensures NoNewHealthy(m, m.MarkReplica(key, node, state, now).0)
      && NoNewHealthy(m, m.AddReplica(key, node, state, now).0)
  {
  }

  lemma BenignWriter(h: Hasher, replicaCount: int, s: State, step: Step)
    requires replicaCount >= 1 && Benign(step)
    ensures var w' := Next(h, replicaCount, s, step).writer; w'.Writing? ==> w' == s.writer || w'.written == 0
  {
    hide TasksOf, PlanOf, FileOf, ReadCandidates, Meta.HealthyNodes, Meta.ListFiles;
  }

  lemma ControlInv(h: Hasher, replicaCount: int, w: World, step: Step)
    requires replicaCount >= 1 && WorldInv(h, w) && Benign(step) && !step.PutPublish?
    ensures var w' := w.(ctl := Next(h, replicaCount, w.ctl, step)); WorldInv(h, w') && (CopyHeld(w) ==> CopyHeld(w'))
  {
    hide Next, Inv, HealthyHold, WorkerOk, CopyHeld, OldCommits, VersionsGrow, NoNewHealthy, Benign;
    var w' := w.(ctl := Next(h, replicaCount, w.ctl, step));
    NextInv(h, replicaCount, w.ctl, step);
    BenignLog(h, replicaCount, w.ctl, step);
    LogGrows(h, w.ctl, w'.ctl);
    InvMeta(h, w.ctl);
    BenignHealthy(h, replicaCount, w.ctl, step);
    BenignWriter(h, replicaCount, w.ctl, step);
    HealthyKept(w, w');
    WorkerKept(h, w, w');
  }

  lemma InvMeta(h: Hasher, s: State)
    requires Inv(h, s)
    ensures s.meta.Valid() && LogOrdered(s.log) && WriterOk(h, s.log, s.meta, s.writer)
    ensures TasksOk(h, s.log, s.meta, s.backlog) && s.backlog.Valid()
  {
  }

  // ----- Publishing -----

  lemma OnlyPrimaryHealthy(h: Hasher, s: State, now: Time, key: string, node: string)
    requires Inv(h, s) && s.writer.Writing?
    requires IsHealthy(s.meta.Store(FileOf(s.meta, s.writer.prep, now)), key, node)
    ensures key == s.writer.prep.key ==> node == s.writer.prep.primary.id
    ensures key != s.writer.prep.key ==> IsHealthy(s.meta, key, node)
  {
  }

  lemma PrimaryHolds(h: Hasher, w: World)
    requires Inv(h, w.ctl) && PutHolds(w) && w.ctl.writer.Writing? && w.ctl.writer.written == |w.ctl.writer.prep.chunks|
    ensures var prep := w.ctl.writer.prep; Holds(w.contents, prep.primary.id, prep.key, prep.version, w.ctl.writer.data)
  {
  }

  lemma PublishHealthy(h: Hasher, replicaCount: int, w: World, now: Time)
    requires replicaCount >= 1 && WorldInv(h, w)
    requires w.ctl.writer.Writing? && w.ctl.writer.written == |w.ctl.writer.prep.chunks|
    ensures HealthyHold(w.(ctl := Next(h, replicaCount, w.ctl, PutPublish(now))))
  {
    hide IsHealthy, Holds, FileOf, Meta.Store, PutHolds, WorkerOk, OldCommits;
    var s := w.ctl;
    var w' := w.(ctl := Next(h, replicaCount, s, PutPublish(now)));
    var s' := w'.ctl;
    var (prep, bytes) := (s.writer.prep, s.writer.data);
    NextInv(h, replicaCount, s, PutPublish(now));
    LogGrows(h, s, s');
    PublishedRecord(h, s, now);
    StoreVersions(s.meta, FileOf(s.meta, prep, now));
    PrimaryHolds(h, w);
    forall key, node | IsHealthy(s'.meta, key, node) ensures HoldsCommitted(w', node, key, s'.meta.Version(key)) {
      OnlyPrimaryHealthy(h, s, now, key, node);
      if key == prep.key {
        forall data | Committed(key, prep.version, data) in s'.log ensures data == bytes {
          assert s'.log[|s.log|] == Committed(prep.key, prep.version, bytes);
          CommitUnique(s'.log, Committed(key, prep.version, data), Committed(prep.key, prep.version, bytes));
        }
      } else {
        HoldsCommittedKept(w, w', node, key, s.meta.Version(key));
      }
    }
  }

  lemma PublishWorld(h: Hasher, replicaCount: int, w: World, now: Time)
    requires replicaCount >= 1 && WorldInv(h, w)
    ensures var w' := w.(ctl := Next(h, replicaCount, w.ctl, PutPublish(now)));
      WorldInv(h, w') && (CopyHeld(w) ==> CopyHeld(w'))
  {
    if w.ctl.writer.Writing? && w.ctl.writer.written == |w.ctl.writer.prep.chunks| {
      hide Inv, HealthyHold, WorkerOk, CopyHeld, OldCommits, VersionsGrow, FileOf;
      var w' := w.(ctl := Next(h, replicaCount, w.ctl, PutPublish(now)));
      NextInv(h, replicaCount, w.ctl, PutPublish(now));
      LogGrows(h, w.ctl, w'.ctl);
      PublishHealthy(h, replicaCount, w, now);
      WorkerKept(h, w, w');
    }
  }

  // ----- Moves that touch the nodes -----

  lemma LookupElsewhere(
      a: Contents, b: Contents, node: string, key: string, version: nat, chunks: seq<ChunkMetadata>,
      node': string, key': string, version': nat, i: nat)
    requires SameOutside(a, b, Places(node, key, version, chunks))
    requires node != node' || key != key' || version != version'
    ensures Lookup(a, ChunkPlace(node', key', version', i)) == Lookup(b, ChunkPlace(node', key', version', i))
  {
    forall j | 0 <= j < |chunks| ensures ChunkPlace(node, key, version, chunks[j].index) != ChunkPlace(node', key',
      version', i) {
      PlacesDiffer(node, key, version, chunks[j].index, node', key', version', i);
    }
  }

  lemma HoldsCommittedElsewhere(
      w: World, after: Contents, node: string, key: string, version: nat, chunks: seq<ChunkMetadata>,
      node': string, key': string, version': nat)
    requires SameOutside(w.contents, after, Places(node, key, version, chunks))
    requires node != node' || key != key' || version != version'
    requires HoldsCommitted(w, node', key', version')
    ensures HoldsCommitted(w.(contents := after), node', key', version')
  {
    hide Holds, Places, SameOutside;
    forall data | Committed(key', version', data) in w.ctl.log ensures Holds(after, node', key', version', data) {
      HoldsElsewhere(w.contents, after, node, key, version, chunks, node', key', version', data);
    }
  }

  /**
   * Touching a version that is not current disturbs neither the healthy replicas nor a finished copy of the current
   * one.
   */
  lemma TouchOther(w: World, after: Contents, node: string, key: string, version: nat, chunks: seq<ChunkMetadata>)
    requires HealthyHold(w) && version != w.ctl.meta.Version(key)
    requires SameOutside(w.contents, after, Places(node, key, version, chunks))
    ensures HealthyHold(w.(contents := after)) && (CopyHeld(w) ==> CopyHeld(w.(contents := after)))
  {
    hide HoldsCommitted, IsHealthy, Places, SameOutside;
    forall k, n | IsHealthy(w.ctl.meta, k, n)
      ensures HoldsCommitted(w.(contents := after), n, k, w.ctl.meta.Version(k))
    {
      HoldsCommittedElsewhere(w, after, node, key, version, chunks, n, k, w.ctl.meta.Version(k));
    }
    if CopyHeld(w) && w.worker.Copied? && w.worker.task.version == w.ctl.meta.Version(w.worker.task.key) {
      var t := w.worker.task;
      HoldsCommittedElsewhere(w, after, node, key, version, chunks, t.target, t.key, t.version);
    }
  }

  /** Healthy replicas and the worker do not depend on the writer. */
  lemma WriterIrrelevant(h: Hasher, w: World, writer: Writer)
    ensures var w' := w.(ctl := w.ctl.(writer := writer));
      && (HealthyHold(w) <==> HealthyHold(w')) && (CopyHeld(w) ==> CopyHeld(w'))
      && (WorkerOk(h, w) ==> WorkerOk(h, w'))
  {
    hide Holds, IsHealthy, TaskOk;
    var w' := w.(ctl := w.ctl.(writer := writer));
    forall n, k, v ensures HoldsCommitted(w, n, k, v) <==> HoldsCommitted(w', n, k, v) { }
  }

  lemma WriteChunkInv(h: Hasher, replicaCount: int, w: World)
    requires replicaCount >= 1 && WorldInv(h, w)
    ensures var w' := Move1(h, replicaCount, w, WriteChunk); WorldInv(h, w') && (CopyHeld(w) ==> CopyHeld(w'))
  {
    hide Inv, HealthyHold, TaskOk, CopyHeld, Places, SameOutside, ChunkPlace;
    var wr := w.ctl.writer;
    if wr.Writing? && wr.written < |wr.prep.chunks| {
      var (prep, i) := (wr.prep, wr.written);
      var p := ChunkPlace(prep.primary.id, prep.key, prep.version, i);
      var after := w.contents[p := Slice(wr.data, i)];
      NextInv(h, replicaCount, w.ctl, PutChunk);
      InvMeta(h, w.ctl);
      assert prep.chunks[i].index == i;
      ChunkWritten(w.contents, after, prep, i, Slice(wr.data, i));
      TouchOther(w, after, prep.primary.id, prep.key, prep.version, prep.chunks);
      WriterIrrelevant(h, w.(contents := after), wr.(written := i + 1));
      forall j | 0 <= j < i ensures ChunkPlace(prep.primary.id, prep.key, prep.version, j) != p {
        PlacesDiffer(prep.primary.id, prep.key, prep.version, j, prep.primary.id, prep.key, prep.version, i);
      }
    }
  }

  lemma ChunkWritten(before: Contents, after: Contents, prep: PreparedWrite, i: nat, bytes: Bytes)
    requires i < |prep.chunks| && prep.chunks[i].index == i
    requires after == before[ChunkPlace(prep.primary.id, prep.key, prep.version, i) := bytes]
    ensures SameOutside(before, after, Places(prep.primary.id, prep.key, prep.version, prep.chunks))
  {
    assert ChunkPlace(prep.primary.id, prep.key, prep.version, prep.chunks[i].index)
           in Places(prep.primary.id, prep.key, prep.version, prep.chunks);
  }

  lemma AbortPutInv(h: Hasher, replicaCount: int, w: World, after: Contents)
    requires replicaCount >= 1 && WorldInv(h, w)
    ensures var w' := Move1(h, replicaCount, w, AbortPut(after)); WorldInv(h, w') && (CopyHeld(w) ==> CopyHeld(w'))
  {
    hide Inv, HealthyHold, TaskOk, CopyHeld, Places, SameOutside;
    var wr := w.ctl.writer;
    if (wr.Staged? || wr.Planned? || wr.Writing?) && SameOutside(w.contents, after, PutPlaces(wr)) {
      NextInv(h, replicaCount, w.ctl, PutFail);
      InvMeta(h, w.ctl);
      if wr.Writing? {
        TouchOther(w, after, wr.prep.primary.id, wr.prep.key, wr.prep.version, wr.prep.chunks);
      } else {
        NothingTouched(w.contents, after);
      }
      WriterIrrelevant(h, w.(contents := after), Idle);
    }
  }

  lemma NothingTouched(before: Contents, after: Contents)
    requires SameOutside(before, after, {})
    ensures after == before
  {
  }

  lemma ScrubInv(h: Hasher, replicaCount: int, w: World, node: string, after: Contents)
    requires replicaCount >= 1 && WorldInv(h, w)
    ensures var w' := Move1(h, replicaCount, w, Scrub(node, after)); WorldInv(h, w') && (CopyHeld(w) ==> CopyHeld(w'))
  {
    hide Inv, HealthyHold, TaskOk, CopyHeld, Places, SameOutside;
    var wr := w.ctl.writer;
    if wr.Scrubbing? && SameOutside(w.contents, after, Places(node, wr.file.key, wr.file.version, wr.file.chunks)) {
      InvMeta(h, w.ctl);
      TouchOther(w, after, node, wr.file.key, wr.file.version, wr.file.chunks);
    }
  }

  // ----- Refused commits -----

  /**
   * A refused commit leaves the healthy replicas honest: no chunk of the published version is removed, or its primary
   * is not healthy any more. The record says whether it is.
   */
  ghost predicate RefuseSafe(w: World, removed: set<Place>) {
    Refuses(w, removed) && IsHealthy(w.ctl.meta, w.ctl.writer.file.key, w.ctl.writer.file.primary) ==>
      removed !! w.contents.Keys
  }

  /** The chunks of the published version are the places of the data it committed. */
  lemma PublishedData(h: Hasher, s: State)
    requires Inv(h, s) && s.writer.Published?
    ensures exists data :: Committed(s.writer.file.key, s.writer.file.version, data) in s.log
                           && s.writer.file.chunks == Partition(h, data)
    ensures s.writer.file.version == s.meta.Version(s.writer.file.key)
  {
    hide LiveOk, TasksOk, ReadersOk, RepairsOk, Meta.Valid, Backlog.Valid, LogOrdered, Partition;
  }

  /** A node that lacks a chunk of the committed data does not hold it. */
  lemma RemovedNotHeld(h: Hasher, c: Contents, node: string, key: string, version: nat, data: Bytes, p: Place)
    requires p in Places(node, key, version, Partition(h, data)) && p !in c
    ensures !Holds(c, node, key, version, data)
  {
    hide ChunkPlace;
    var chunks := Partition(h, data);
    var i :| 0 <= i < |chunks| && p == ChunkPlace(node, key, version, chunks[i].index);
    assert chunks[i] == ChunkAt(h, data, i);
    assert Lookup(c, ChunkPlace(node, key, version, i)).Err?;
  }

  lemma RefusedHonest(h: Hasher, w: World, removed: set<Place>)
    requires WorldInv(h, w) && Refuses(w, removed) && RefuseSafe(w, removed)
    ensures HealthyHold(w.(contents := w.contents - removed))
  {
    hide Inv, HoldsCommitted, IsHealthy, Places, Refusable;
    var (f, after) := (w.ctl.writer.file, w.contents - removed);
    if removed !! w.contents.Keys {
      assert after == w.contents;
    } else {
      RemovedOutside(w.contents, removed, Places(f.primary, f.key, f.version, f.chunks));
      forall k, n | IsHealthy(w.ctl.meta, k, n)
        ensures HoldsCommitted(w.(contents := after), n, k, w.ctl.meta.Version(k))
      {
        HoldsCommittedElsewhere(w, after, f.primary, f.key, f.version, f.chunks, n, k, w.ctl.meta.Version(k));
      }
    }
  }

  lemma RemovedOutside(c: Contents, removed: set<Place>, places: set<Place>)
    requires removed <= places
    ensures SameOutside(c, c - removed, places)
  {
  }

  lemma RefusedDishonest(h: Hasher, w: World, removed: set<Place>)
    requires WorldInv(h, w) && Refuses(w, removed) && !RefuseSafe(w, removed)
    ensures !HealthyHold(w.(contents := w.contents - removed))
  {
    hide Inv, Holds, Partition, Places, Refusable, IsHealthy;
    var f := w.ctl.writer.file;
    var w' := w.(contents := w.contents - removed);
    PublishedData(h, w.ctl);
    var data :| Committed(f.key, f.version, data) in w.ctl.log && f.chunks == Partition(h, data);
    var p :| p in removed && p in w.contents;
    RemovedNotHeld(h, w'.contents, f.primary, f.key, f.version, data, p);
    assert !HoldsCommitted(w', f.primary, f.key, f.version);
  }

  /** A refused commit keeps the healthy replicas honest exactly if it is safe. */
  lemma RefuseExact(h: Hasher, replicaCount: int, w: World, removed: set<Place>)
    requires replicaCount >= 1 && WorldInv(h, w)
    ensures HealthyHold(Move1(h, replicaCount, w, RefuseCommit(removed))) <==> RefuseSafe(w, removed)
  {
    hide WorldInv, HealthyHold, RefuseSafe, Refuses;
    if Refuses(w, removed) {
      WriterIrrelevant(h, w.(contents := w.contents - removed), Idle);
      RefusedWorld(h, replicaCount, w, removed);
      if RefuseSafe(w, removed) { RefusedHonest(h, w, removed); } else { RefusedDishonest(h, w, removed); }
    } else {
      NotRefused(h, w, removed);
    }
  }

  lemma NotRefused(h: Hasher, w: World, removed: set<Place>)
    requires WorldInv(h, w) && !Refuses(w, removed)
    ensures HealthyHold(w) && RefuseSafe(w, removed)
  {
  }

  lemma RefusedWorld(h: Hasher, replicaCount: int, w: World, removed: set<Place>)
    requires replicaCount >= 1 && Refuses(w, removed)
    ensures Move1(h, replicaCount, w, RefuseCommit(removed)) ==
            w.(ctl := w.ctl.(writer := Idle), contents := w.contents - removed)
    ensures Next(h, replicaCount, w.ctl, PutFail) == w.ctl.(writer := Idle)
  {
  }

  lemma RefuseCommitInv(h: Hasher, replicaCount: int, w: World, removed: set<Place>)
    requires replicaCount >= 1 && WorldInv(h, w) && RefuseSafe(w, removed)
    ensures WorldInv(h, Move1(h, replicaCount, w, RefuseCommit(removed)))
  {
    hide Inv, HealthyHold, RefuseSafe, Refuses, TaskOk;
    RefuseExact(h, replicaCount, w, removed);
    if Refuses(w, removed) {
      NextInv(h, replicaCount, w.ctl, PutFail);
      RefusedWorld(h, replicaCount, w, removed);
    }
  }

  // ----- The worker -----

  /** After a successful copy the target holds whatever was committed as the version of the task. */
  lemma CopiedCommitted(h: Hasher, w: World, after: Contents, t: ReplicationTask)
    requires CollisionFree(h) && LogOrdered(w.ctl.log) && TaskOk(h, w.ctl.log, w.ctl.meta, t)
    requires CopyOutcome(h, w.contents, after, t, true)
    ensures HoldsCommitted(w.(contents := after), t.target, t.key, t.version)
  {
    hide Holds, CopyOutcome, LogOrdered;
    var bytes :| Committed(t.key, t.version, bytes) in w.ctl.log && t.checksum == h(bytes)
      && t.chunks == Partition(h, bytes);
    forall data | Committed(t.key, t.version, data) in w.ctl.log
      ensures Holds(after, t.target, t.key, t.version, data)
    {
      CommitUnique(w.ctl.log, Committed(t.key, t.version, data), Committed(t.key, t.version, bytes));
      CopiedHolds(h, w.contents, after, t, data);
    }
  }

  /** A copy never touches what a running Put has written. */
  lemma PutUndisturbed(h: Hasher, w: World, after: Contents, t: ReplicationTask)
    requires PutHolds(w) && WriterOk(h, w.ctl.log, w.ctl.meta, w.ctl.writer) && t.version <= w.ctl.meta.Version(t.key)
    requires SameOutside(w.contents, after, Places(t.target, t.key, t.version, t.chunks))
    ensures PutHolds(w.(contents := after))
  {
    hide SameOutside, Places, ChunkPlace, Lookup;
    if w.ctl.writer.Writing? {
      var prep := w.ctl.writer.prep;
      forall i | 0 <= i < w.ctl.writer.written
        ensures Lookup(after, ChunkPlace(prep.primary.id, prep.key, prep.version, i)) ==
                Lookup(w.contents, ChunkPlace(prep.primary.id, prep.key, prep.version, i))
      {
        LookupElsewhere(w.contents, after, t.target, t.key, t.version, t.chunks, prep.primary.id, prep.key,
          prep.version, i);
      }
    }
  }

  lemma OutcomeFrame(h: Hasher, before: Contents, after: Contents, t: ReplicationTask, ok: bool)
    requires CopyOutcome(h, before, after, t, ok)
    ensures SameOutside(before, after, Places(t.target, t.key, t.version, t.chunks))
  {
  }

  lemma WorkCopiedInv(h: Hasher, replicaCount: int, w: World, after: Contents)
    requires replicaCount >= 1 && CollisionFree(h) && WorldInv(h, w)
    ensures var w' := Move1(h, replicaCount, w, WorkCopied(after)); WorldInv(h, w') && (CopyHeld(w) ==> CopyHeld(w'))
  {
    hide Inv, HoldsCommitted, IsHealthy, CopyOutcome, SameOutside, Places, PutHolds, WriterOk, TasksOk, LogOrdered;
    if w.worker.Copying? && CopyOutcome(h, w.contents, after, w.worker.task, true) {
      var t := w.worker.task;
      var w' := w.(contents := after);
      InvMeta(h, w.ctl);
      TaskVersion(h, w.ctl, t);
      OutcomeFrame(h, w.contents, after, t, true);
      PutUndisturbed(h, w, after, t);
      CopiedCommitted(h, w, after, t);
      forall k, n | IsHealthy(w.ctl.meta, k, n) ensures HoldsCommitted(w', n, k, w.ctl.meta.Version(k)) {
        if k != t.key || n != t.target || w.ctl.meta.Version(k) != t.version {
          HoldsCommittedElsewhere(w, after, t.target, t.key, t.version, t.chunks, n, k, w.ctl.meta.Version(k));
        }
      }
      WorkerOnly(w', Copied(t));
    }
  }

  /** Changing only what the worker holds changes nothing about replicas and the Put. */
  lemma WorkerOnly(w: World, worker: Worker)
    ensures HealthyHold(w) ==> HealthyHold(w.(worker := worker))
    ensures PutHolds(w) ==> PutHolds(w.(worker := worker))
    ensures forall n, k, v :: HoldsCommitted(w, n, k, v) ==> HoldsCommitted(w.(worker := worker), n, k, v)
  {
    hide Holds, IsHealthy;
    var w' := w.(worker := worker);
    forall n, k, v | HoldsCommitted(w, n, k, v) ensures HoldsCommitted(w', n, k, v) { }
  }

  lemma FailedHealthy(m: Meta, key: string, node: string, now: Time, k: string, n: string)
    requires IsHealthy(m.MarkReplica(key, node, ReplicaMissing, now).0, k, n)
    ensures IsHealthy(m, k, n) && (k != key || n != node)
      && m.MarkReplica(key, node, ReplicaMissing, now).0.Version(k) == m.Version(k)
  {
  }

  lemma WorkFailedInv(h: Hasher, replicaCount: int, w: World, after: Contents, cause: string, now: Time)
    requires replicaCount >= 1 && WorldInv(h, w)
    ensures WorldInv(h, Move1(h, replicaCount, w, WorkFailed(after, cause, now)))
  {
    hide Inv, HoldsCommitted, IsHealthy, CopyOutcome, SameOutside, Places, PutHolds, WriterOk, TasksOk, LogOrdered,
         Meta.MarkReplica, Backlog.MarkFailed, Meta.Version, OldCommits;
    if w.worker.Copying? && CopyOutcome(h, w.contents, after, w.worker.task, false) {
      var t := w.worker.task;
      var s1 := Next(h, replicaCount, w.ctl, FailTask(t.id, cause, now));
      var s2 := Next(h, replicaCount, s1, Mark(t.key, t.target, ReplicaMissing, now));
      NextInv(h, replicaCount, w.ctl, FailTask(t.id, cause, now));
      NextInv(h, replicaCount, s1, Mark(t.key, t.target, ReplicaMissing, now));
      InvMeta(h, w.ctl);
      TaskVersion(h, w.ctl, t);
      OutcomeFrame(h, w.contents, after, t, false);
      PutUndisturbed(h, w, after, t);
      LogGrows(h, w.ctl, s2);
      var w1, w2 := w.(contents := after), World(s2, after, Waiting);
      assert PutHolds(w2) by { SamePut(w1, w2); }
      forall k, n | IsHealthy(s2.meta, k, n) ensures HoldsCommitted(w2, n, k, s2.meta.Version(k)) {
        FailedHealthy(w.ctl.meta, t.key, t.target, now, k, n);
        HoldsCommittedElsewhere(w, after, t.target, t.key, t.version, t.chunks, n, k, w.ctl.meta.Version(k));
        HoldsCommittedKept(w1, w2, n, k, w.ctl.meta.Version(k));
      }
    }
  }

  lemma SamePut(w: World, w': World)
    requires PutHolds(w) && w'.ctl.writer == w.ctl.writer && w'.contents == w.contents
    ensures PutHolds(w')
  {
  }

  lemma FinishedHealthy(m: Meta, key: string, node: string, now: Time, k: string, n: string)
    ensures var m' := m.MarkReplica(key, node, ReplicaHealthy, now).0;
      && m'.Version(k) == m.Version(k)
      && (IsHealthy(m', k, n) <==>
            IsHealthy(m, k, n)
            || (k == key && n == node && key in m.files && !m.files[key].deleted && node in m.files[key].replicas))
  {
  }

  /**
   * The finished task does not make a live file count on a replica that lacks its current version. A caller can test
   * it before the call: the record says whether the target is a replica, and reading its chunks back whether it has
   * them.
   */
  ghost predicate FinishSafe(w: World) {
    w.worker.Copied? ==>
      var (t, m) := (w.worker.task, w.ctl.meta);
      t.key in m.files && !m.files[t.key].deleted && t.target in m.files[t.key].replicas ==>
        HoldsCommitted(w, t.target, t.key, m.Version(t.key))
  }

  lemma FinishWorld(h: Hasher, replicaCount: int, w: World, now: Time)
    requires replicaCount >= 1 && Inv(h, w.ctl) && w.worker.Copied?
    ensures var w' := Move1(h, replicaCount, w, WorkFinish(now)); var t := w.worker.task;
      && Inv(h, w'.ctl) && w'.ctl.log == w.ctl.log && w'.contents == w.contents && w'.ctl.writer == w.ctl.writer
      && w'.worker == Waiting && w'.ctl.meta == w.ctl.meta.MarkReplica(t.key, t.target, ReplicaHealthy, now).0
      && (forall n, k, v :: HoldsCommitted(w', n, k, v) <==> HoldsCommitted(w, n, k, v))
  {
    hide Inv, Holds, Meta.MarkReplica, Backlog.MarkDone;
    var t := w.worker.task;
    var s1 := Next(h, replicaCount, w.ctl, FinishTask(t.id, now));
    NextInv(h, replicaCount, w.ctl, FinishTask(t.id, now));
    NextInv(h, replicaCount, s1, Mark(t.key, t.target, ReplicaHealthy, now));
  }

  /**
   * FinishReplication does not compare the version of the task with that of the file. It keeps the healthy replicas
   * honest exactly when the target it marks holds the current version, or is no replica of a live file.
   */
  lemma FinishExact(h: Hasher, replicaCount: int, w: World, now: Time)
    requires replicaCount >= 1 && WorldInv(h, w)
    ensures HealthyHold(Move1(h, replicaCount, w, WorkFinish(now))) <==> FinishSafe(w)
  {
    if w.worker.Copied? {
      hide Inv, HoldsCommitted, IsHealthy, Move1, Meta.MarkReplica, Meta.Version;
      var (t, m) := (w.worker.task, w.ctl.meta);
      var w' := Move1(h, replicaCount, w, WorkFinish(now));
      FinishWorld(h, replicaCount, w, now);
      forall k, n ensures var m' := w'.ctl.meta;
        m'.Version(k) == m.Version(k)
        && (IsHealthy(m', k, n) <==>
              IsHealthy(m, k, n)
              || (k == t.key && n == t.target && t.key in m.files && !m.files[t.key].deleted
                && t.target in m.files[t.key].replicas))
      {
        FinishedHealthy(m, t.key, t.target, now, k, n);
      }
    }
  }

  /** The version test the code leaves out is enough: a task of the current version always finishes safely. */
  lemma CurrentIsSafe(h: Hasher, w: World)
    requires WorldInv(h, w) && CopyHeld(w)
    requires w.worker.Copied? ==> w.worker.task.version == w.ctl.meta.Version(w.worker.task.key)
    ensures FinishSafe(w)
  {
  }

  lemma WorkFinishInv(h: Hasher, replicaCount: int, w: World, now: Time)
    requires replicaCount >= 1 && WorldInv(h, w) && FinishSafe(w)
    ensures WorldInv(h, Move1(h, replicaCount, w, WorkFinish(now)))
  {
    hide Inv, HealthyHold, HoldsCommitted, FinishSafe;
    FinishExact(h, replicaCount, w, now);
    if w.worker.Copied? {
      FinishWorld(h, replicaCount, w, now);
      SamePut(w, Move1(h, replicaCount, w, WorkFinish(now)));
    }
  }

  lemma WorkStartInv(h: Hasher, replicaCount: int, w: World, now: Time)
    requires replicaCount >= 1 && WorldInv(h, w)
    ensures var w' := Move1(h, replicaCount, w, WorkStart(now)); WorldInv(h, w') && (CopyHeld(w) ==> CopyHeld(w'))
  {
    hide Inv, HealthyHold, PutHolds, HoldsCommitted, Next, TaskOk, Backlog.Valid;
    if w.worker.Waiting? && w.ctl.backlog.Pending(now) != [] {
      var id := w.ctl.backlog.Pending(now)[0].id;
      ControlInv(h, replicaCount, w, StartTask(id, now));
      var w1 := w.(ctl := Next(h, replicaCount, w.ctl, StartTask(id, now)));
      InvMeta(h, w1.ctl);
      if id in w1.ctl.backlog.tasks { WorkerOnly(w1, Copying(w1.ctl.backlog.tasks[id])); }
    }
  }

  // ----- Crashes -----

  /**
   * A crash leaves the healthy replicas honest: it does not hit a copy of the current version onto a replica that is
   * healthy already, or what it leaves there is still all of that version.
   */
  ghost predicate CrashSafe(w: World, put: Contents, after: Contents) {
    Torn(w, put, after) && OverwritesHealthy(w) ==>
      HoldsCommitted(w.(contents := after), w.worker.task.target, w.worker.task.key, w.worker.task.version)
  }

  /** The running copy writes over a healthy replica of the current version. */
  ghost predicate OverwritesHealthy(w: World) {
    && w.worker.Copying? && w.worker.task.version == w.ctl.meta.Version(w.worker.task.key)
    && IsHealthy(w.ctl.meta, w.worker.task.key, w.worker.task.target)
  }

  /** A torn chunk write of a Put concerns a version that is not published yet. */
  lemma TornPut(h: Hasher, w: World, put: Contents)
    requires WorldInv(h, w) && SameOutside(w.contents, put, PutPlaces(w.ctl.writer))
    ensures HealthyHold(w.(contents := put))
  {
    hide Inv, HealthyHold, Places, SameOutside;
    InvMeta(h, w.ctl);
    if w.ctl.writer.Writing? {
      var prep := w.ctl.writer.prep;
      TouchOther(w, put, prep.primary.id, prep.key, prep.version, prep.chunks);
    } else {
      NothingTouched(w.contents, put);
    }
  }

  lemma TornCopy(h: Hasher, w: World, put: Contents, after: Contents)
    requires WorldInv(h, w) && Torn(w, put, after)
    ensures HealthyHold(w.(contents := after)) <==> CrashSafe(w, put, after)
  {
    hide Inv, HoldsCommitted, IsHealthy, Places, SameOutside, PutHolds;
    TornPut(h, w, put);
    var w1, w2 := w.(contents := put), w.(contents := after);
    if CrashSafe(w, put, after) {
      forall k, n | IsHealthy(w.ctl.meta, k, n) ensures HoldsCommitted(w2, n, k, w.ctl.meta.Version(k)) {
        if !w.worker.Copying? {
          NothingTouched(put, after);
        } else if k != w.worker.task.key || n != w.worker.task.target
          || w.ctl.meta.Version(k) != w.worker.task.version {
          var t := w.worker.task;
          HoldsCommittedElsewhere(w1, after, t.target, t.key, t.version, t.chunks, n, k, w.ctl.meta.Version(k));
        }
      }
    }
  }

  lemma CrashedWorld(h: Hasher, replicaCount: int, w: World, put: Contents, after: Contents, now: Time)
    requires replicaCount >= 1
    ensures var w' := Move1(h, replicaCount, w, Crash(put, after, now));
      && (Torn(w, put, after) ==>
            && w'.contents == after && w'.worker == Waiting && w'.ctl.writer == Idle
            && w'.ctl == Next(h, replicaCount, w.ctl, Restart(now))
            && (HealthyHold(w') <==> HealthyHold(w.(contents := after))))
      && (!Torn(w, put, after) ==> w' == w)
  {
    hide Holds, IsHealthy, Torn, Backlog.Restore;
    var (w1, w') := (w.(contents := after), Move1(h, replicaCount, w, Crash(put, after, now)));
    if Torn(w, put, after) {
      forall n, k, v ensures HoldsCommitted(w1, n, k, v) <==> HoldsCommitted(w', n, k, v) { }
    }
  }

  /** A crash keeps the healthy replicas honest exactly if it is safe. */
  lemma CrashExact(h: Hasher, replicaCount: int, w: World, put: Contents, after: Contents, now: Time)
    requires replicaCount >= 1 && WorldInv(h, w)
    ensures HealthyHold(Move1(h, replicaCount, w, Crash(put, after, now))) <==> CrashSafe(w, put, after)
  {
    hide HealthyHold, Torn, Move1, Inv, OverwritesHealthy;
    CrashedWorld(h, replicaCount, w, put, after, now);
    if Torn(w, put, after) { TornCopy(h, w, put, after); }
  }

  lemma CrashInv(h: Hasher, replicaCount: int, w: World, put: Contents, after: Contents, now: Time)
    requires replicaCount >= 1 && WorldInv(h, w) && CrashSafe(w, put, after)
    ensures var w' := Move1(h, replicaCount, w, Crash(put, after, now));
      WorldInv(h, w') && (CopyHeld(w) ==> CopyHeld(w'))
  {
    hide Inv, HealthyHold, Torn, Move1, CrashSafe, HoldsCommitted;
    CrashExact(h, replicaCount, w, put, after, now);
    CrashedWorld(h, replicaCount, w, put, after, now);
    if Torn(w, put, after) { NextInv(h, replicaCount, w.ctl, Restart(now)); }
  }

  // ----- What holds of every run -----

  lemma MoveInv(h: Hasher, replicaCount: int, w: World, move: Move)
    requires replicaCount >= 1 && CollisionFree(h) && WorldInv(h, w)
    requires move.WorkFinish? ==> FinishSafe(w)
    requires move.RefuseCommit? ==> RefuseSafe(w, move.removed)
    requires move.Crash? ==> CrashSafe(w, move.put, move.after)
    ensures var w' := Move1(h, replicaCount, w, move);
      && WorldInv(h, w')
      && (CopyHeld(w) && (move.RefuseCommit? ==> !Refuses(w, move.removed)) ==> CopyHeld(w'))
  {
    hide WorldInv, Next, FinishSafe, RefuseSafe, Refuses, CrashSafe, Torn, HoldsCommitted;
    match move
    case Control(step) =>
      if Benign(step) {
        if step.PutPublish? { PublishWorld(h, replicaCount, w, step.now); } else {
          ControlInv(h, replicaCount, w, step);
        }
      }
    case WriteChunk => WriteChunkInv(h, replicaCount, w);
    case RefuseCommit(removed) => RefuseCommitInv(h, replicaCount, w, removed);
    case AbortPut(after) => AbortPutInv(h, replicaCount, w, after);
    case Scrub(node, after) => ScrubInv(h, replicaCount, w, node, after);
    case WorkStart(now) => WorkStartInv(h, replicaCount, w, now);
    case WorkCopied(after) => WorkCopiedInv(h, replicaCount, w, after);
    case WorkFailed(after, cause, now) => WorkFailedInv(h, replicaCount, w, after, cause, now);
    case WorkFinish(now) => WorkFinishInv(h, replicaCount, w, now);
    case Crash(put, after, now) => CrashInv(h, replicaCount, w, put, after, now);
  }

  ghost function After(h: Hasher, replicaCount: int, moves: seq<Move>): World
    requires replicaCount >= 1
  {
    History(h, replicaCount, EMPTY_WORLD, moves)
  }

  /** Whenever the worker finishes a task, its target holds the current version or is no replica of a live file. */
  ghost predicate FinishesSafe(h: Hasher, replicaCount: int, moves: seq<Move>)
    requires replicaCount >= 1
  {
    forall i :: 0 <= i < |moves| && moves[i].WorkFinish? ==> FinishSafe(After(h, replicaCount, moves[..i]))
  }

  /** Whenever a commit is refused after publishing, nothing is removed or the primary is not healthy any more. */
  ghost predicate RefusalsSafe(h: Hasher, replicaCount: int, moves: seq<Move>)
    requires replicaCount >= 1
  {
    forall i :: 0 <= i < |moves| && moves[i].RefuseCommit? ==>
      RefuseSafe(After(h, replicaCount, moves[..i]), moves[i].removed)
  }

  /** Whenever the manager crashes inside a copy onto a healthy replica, all of the current version is left there. */
  ghost predicate CrashesSafe(h: Hasher, replicaCount: int, moves: seq<Move>)
    requires replicaCount >= 1
  {
    forall i :: 0 <= i < |moves| && moves[i].Crash? ==>
      CrashSafe(After(h, replicaCount, moves[..i]), moves[i].put, moves[i].after)
  }

  ghost predicate SafeRun(h: Hasher, replicaCount: int, moves: seq<Move>)
    requires replicaCount >= 1
  {
    FinishesSafe(h, replicaCount, moves) && RefusalsSafe(h, replicaCount, moves) && CrashesSafe(h, replicaCount, moves)
  }

  /** No crash hits a copy of the current version onto a replica that is healthy already. */
  ghost predicate CrashesClear(h: Hasher, replicaCount: int, moves: seq<Move>)
    requires replicaCount >= 1
  {
    forall i :: 0 <= i < |moves| && moves[i].Crash? ==> !OverwritesHealthy(After(h, replicaCount, moves[..i]))
  }

  /** Whenever the worker finishes a task, the task carries the current version of its file. */
  ghost predicate FinishesCurrent(h: Hasher, replicaCount: int, moves: seq<Move>)
    requires replicaCount >= 1
  {
    forall i :: 0 <= i < |moves| && moves[i].WorkFinish? ==>
      var w := After(h, replicaCount, moves[..i]);
      w.worker.Copied? ==> w.worker.task.version == w.ctl.meta.Version(w.worker.task.key)
  }

  /** Every published file has a named primary, and the IDs of its copies can be stored. */
  ghost predicate CommitsAccepted(h: Hasher, replicaCount: int, moves: seq<Move>)
    requires replicaCount >= 1
  {
    forall i :: 0 <= i < |moves| ==>
      var w := After(h, replicaCount, moves[..i]);
      w.ctl.writer.Published? ==> !Refusable(w.ctl.writer.file)
  }

  ghost predicate AlwaysHealthyHold(h: Hasher, replicaCount: int, moves: seq<Move>)
    requires replicaCount >= 1
  {
    forall n :: 0 <= n <= |moves| ==> HealthyHold(After(h, replicaCount, moves[..n]))
  }

  lemma Prefixes<T>(moves: seq<T>, n: nat)
    requires n <= |moves|
    ensures forall i :: 0 <= i <= n ==> moves[..n][..i] == moves[..i]
    ensures moves[..|moves|] == moves
  {
  }

  lemma {:induction false} HistoryInv(h: Hasher, replicaCount: int, moves: seq<Move>)
    requires replicaCount >= 1 && CollisionFree(h) && SafeRun(h, replicaCount, moves)
    ensures WorldInv(h, After(h, replicaCount, moves))
  {
    hide Move1, FinishSafe, RefuseSafe, CrashSafe;
    if moves == [] {
      RunInv(h, replicaCount, []);
    } else {
      var (before, last) := (moves[..|moves| - 1], moves[|moves| - 1]);
      Prefixes(moves, |before|);
      HistoryInv(h, replicaCount, before);
      MoveInv(h, replicaCount, After(h, replicaCount, before), last);
    }
  }

  lemma {:induction false} HonestIsSafe(h: Hasher, replicaCount: int, moves: seq<Move>)
    requires replicaCount >= 1 && CollisionFree(h) && AlwaysHealthyHold(h, replicaCount, moves)
    ensures SafeRun(h, replicaCount, moves)
  {
    hide Move1, FinishSafe, RefuseSafe, CrashSafe, HealthyHold, WorldInv;
    if moves != [] {
      var (before, last) := (moves[..|moves| - 1], moves[|moves| - 1]);
      Prefixes(moves, |before|);
      HonestIsSafe(h, replicaCount, before);
      HistoryInv(h, replicaCount, before);
      assert HealthyHold(After(h, replicaCount, moves[..|moves|]));
      if last.WorkFinish? { FinishExact(h, replicaCount, After(h, replicaCount, before), last.now); }
      if last.RefuseCommit? { RefuseExact(h, replicaCount, After(h, replicaCount, before), last.removed); }
      if last.Crash? { CrashExact(h, replicaCount, After(h, replicaCount, before), last.put, last.after, last.now); }
    }
  }

  /**
   * Over a whole run, healthy replicas are honest throughout exactly if every finish, refused commit and crash is
   * safe.
   */
  lemma HonestIffSafe(h: Hasher, replicaCount: int, moves: seq<Move>)
    requires replicaCount >= 1 && CollisionFree(h)
    ensures AlwaysHealthyHold(h, replicaCount, moves) <==> SafeRun(h, replicaCount, moves)
  {
    hide FinishSafe, RefuseSafe, CrashSafe, HealthyHold;
    if AlwaysHealthyHold(h, replicaCount, moves) { HonestIsSafe(h, replicaCount, moves); }
    if SafeRun(h, replicaCount, moves) {
      forall n | 0 <= n <= |moves| ensures HealthyHold(After(h, replicaCount, moves[..n])) {
        Prefixes(moves, n);
        HistoryInv(h, replicaCount, moves[..n]);
      }
    }
  }

  /**
   * What a caller can see to beforehand is enough: current versions when copies finish, commits that are accepted,
   * and no crash inside a copy onto a healthy replica.
   */
  lemma {:induction false} CurrentRunsSafe(h: Hasher, replicaCount: int, moves: seq<Move>)
    requires replicaCount >= 1 && CollisionFree(h)
    requires FinishesCurrent(h, replicaCount, moves) && CommitsAccepted(h, replicaCount, moves)
    requires CrashesClear(h, replicaCount, moves)
    ensures SafeRun(h, replicaCount, moves) && CopyHeld(After(h, replicaCount, moves))
  {
    hide Move1, FinishSafe, WorldInv, Meta.Version, Refusable, HoldsCommitted, OverwritesHealthy, Torn;
    if moves != [] {
      var (before, last) := (moves[..|moves| - 1], moves[|moves| - 1]);
      Prefixes(moves, |before|);
      CurrentRunsSafe(h, replicaCount, before);
      HistoryInv(h, replicaCount, before);
      var w := After(h, replicaCount, before);
      if last.WorkFinish? { CurrentIsSafe(h, w); }
      MoveInv(h, replicaCount, w, last);
    }
  }

  /**
   * In every safe run, every healthy replica of every live file holds all chunks of the
   * current version, and reading it back from a faithful node gives the committed bytes.
   */
  lemma HealthyIsReadable(h: Hasher, replicaCount: int, moves: seq<Move>, key: string, node: string)
    requires replicaCount >= 1 && CollisionFree(h) && SafeRun(h, replicaCount, moves)
    requires IsHealthy(After(h, replicaCount, moves).ctl.meta, key, node)
    ensures var w := After(h, replicaCount, moves);
      var f := w.ctl.meta.files[key];
      exists data :: Committed(key, f.version, data) in w.ctl.log
                     && Holds(w.contents, node, key, f.version, data)
                     && Assemble(h, f, Answers(w.contents, node, f)) == Ok(data)
  {
    var w := After(h, replicaCount, moves);
    HistoryInv(h, replicaCount, moves);
    var f := w.ctl.meta.files[key];
    hide Holds;
    LiveSnapshot(h, w.ctl, key);
    assert f.key == key;
    var data :| Committed(f.key, f.version, data) in w.ctl.log && FileDescribes(h, data, f);
    assert HoldsCommitted(w, node, key, w.ctl.meta.Version(key));
    ReadableIffHolds(h, w.contents, node, f, data);
  }
}

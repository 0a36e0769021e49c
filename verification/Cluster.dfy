/**
 * The manager as a step machine. Writers hold the write lock from start to end; reads, repair, workers,
 * heartbeats and restarts interleave with them and with each other freely. The storage nodes do not appear: whatever
 * they answer is a parameter of the theorems.
 */
module Cluster {
  import opened Types
  import opened Ordering
  import opened Naming
  import opened Chunking
  import opened Metadata
  import opened Queue
  import opened Placement

  /** One entry per published version, in order of publication. */
  datatype Event = Committed(key: string, version: nat, data: Bytes) | Removed(key: string, version: nat)

  /** Where the holder of the write lock is. */
  datatype Writer =
    | Idle
    | Staged(key: string, data: Bytes)
    | Planned(key: string, data: Bytes, plan: ReplicaPlan)
    | Writing(prep: PreparedWrite, data: Bytes, written: nat)
    | Published(file: FileMetadata)
    | Deleting(file: FileMetadata)
    | Scrubbing(file: FileMetadata)

  /**
   * readers hold the plan each running Get started from, repairs the file listing each running PlanRepair
   * started from. log is history: no operation reads it.
   */
  datatype State = State(
    meta: Meta,
    backlog: Backlog,
    writer: Writer,
    readers: map<nat, ReadPlan>,
    repairs: map<nat, seq<FileMetadata>>,
    log: seq<Event>)

  const INIT := State(NO_META, NO_TASKS, Idle, map[], map[], [])

  datatype Step =
    | Heartbeat(id: string, addr: string, now: Time)
    | ExpireNodes(ttl: int, now: Time)
    | PutStage(key: string, data: Bytes)
    | PutPlan
    | PutPrepare
    | PutChunk
    | PutPublish(now: Time)
    | PutEnqueue(now: Time)
    | PutFail
    | DeleteLook(key: string)
    | DeleteTombstone(now: Time)
    | DeleteDone
    | ReadStart(reader: nat, key: string)
    | ReadEnd(reader: nat)
    | Mark(key: string, node: string, state: ReplicaState, now: Time)  // by a Get or a worker, at any time
    | StartTask(id: string, now: Time)
    | FinishTask(id: string, now: Time)
    | FailTask(id: string, cause: string, now: Time)
    | Sweep(now: Time)
    | RepairList(repair: nat)
    | RepairAdd(key: string, node: string, now: Time)
    | RepairEnqueue(repair: nat, tasks: seq<ReplicationTask>)
    | Restart(now: Time)

  function Prepared(h: Hasher, m: Meta, key: string, data: Bytes, plan: ReplicaPlan): PreparedWrite {
    PreparedWrite(key, m.NextVersion(key), |data|, h(data), Partition(h, data), plan.primary, plan.replicas)
  }

  /** t is a copy task for a live file of the listing, from its least healthy replica to some other node. */
  ghost predicate RepairTask(listing: seq<FileMetadata>, t: ReplicationTask) {
    exists f <- listing :: !f.deleted && SourceOf(f) != t.target && t == CopyTask(f, SourceOf(f), t.target, t.createdAt)
  }

  /** A step that is not enabled changes nothing. */
  ghost function Next(h: Hasher, replicaCount: int, s: State, step: Step): State
    requires replicaCount >= 1
  {
    match step
    case Heartbeat(id, addr, now) => s.(meta := s.meta.UpsertNode(id, addr, now))
    case ExpireNodes(ttl, now) => s.(meta := s.meta.MarkExpiredNodes(ttl, now))
    case PutStage(key, data) => if s.writer.Idle? then s.(writer := Staged(key, data)) else s
    case PutPlan =>
      if !s.writer.Staged? then s
      else
        var plan := PlanOf(s.meta.HealthyNodes(), replicaCount);
        s.(writer := if plan.Ok? then Planned(s.writer.key, s.writer.data, plan.value) else Idle)
    case PutPrepare =>
      if !s.writer.Planned? then s
      else s.(writer := Writing(Prepared(h, s.meta, s.writer.key, s.writer.data, s.writer.plan), s.writer.data, 0))
    case PutChunk =>
      if s.writer.Writing? && s.writer.written < |s.writer.prep.chunks|
      then s.(writer := s.writer.(written := s.writer.written + 1)) else s
    case PutPublish(now) =>
      if !s.writer.Writing? || s.writer.written != |s.writer.prep.chunks| then s
      else
        var f := FileOf(s.meta, s.writer.prep, now);
        s.(meta := s.meta.Store(f), writer := Published(f), log := s.log + [Committed(f.key, f.version, s.writer.data)])
    case PutEnqueue(now) =>
      if !s.writer.Published? then s
      else
        var tasks := TasksOf(s.writer.file, now);
        s.(writer := Idle, backlog := if tasks.Ok? then s.backlog.Enqueue(tasks.value) else s.backlog)
    case PutFail =>
      if s.writer.Staged? || s.writer.Planned? || s.writer.Writing? || s.writer.Published? then s.(writer := Idle)
        else s
    case DeleteLook(key) =>
      if s.writer.Idle? && key in s.meta.files then s.(writer := Deleting(s.meta.files[key])) else s
    case DeleteTombstone(now) =>
      if !s.writer.Deleting? then s
      else
        var (m, r) := s.meta.Tombstone(s.writer.file.key, now);
        if r.Err? then s.(writer := Idle)
        else s.(meta := m, writer := Scrubbing(s.writer.file), log := s.log + [Removed(r.value.key, r.value.version)])
    case DeleteDone => if s.writer.Scrubbing? then s.(writer := Idle) else s
    case ReadStart(reader, key) =>
      var plan := ReadCandidates(s.meta, key);
      if plan.Ok? then s.(readers := s.readers[reader := plan.value]) else s
    case ReadEnd(reader) => s.(readers := s.readers - {reader})
    case Mark(key, node, state, now) => s.(meta := s.meta.MarkReplica(key, node, state, now).0)
    case StartTask(id, now) => s.(backlog := s.backlog.MarkRunning(id, now).0)
    case FinishTask(id, now) => s.(backlog := s.backlog.MarkDone(id, now).0)
    case FailTask(id, cause, now) => s.(backlog := s.backlog.MarkFailed(id, cause, now).0)
    case Sweep(now) => s.(backlog := s.backlog.RequeueExpiredRunning(now))
    case RepairList(repair) => s.(repairs := s.repairs[repair := s.meta.ListFiles()])
    case RepairAdd(key, node, now) => s.(meta := s.meta.AddReplica(key, node, ReplicaPending, now).0)
    case RepairEnqueue(repair, tasks) =>
      if repair in s.repairs && forall t <- tasks :: RepairTask(s.repairs[repair], t)
      then s.(backlog := s.backlog.Enqueue(tasks), repairs := s.repairs - {repair}) else s
    case Restart(now) => State(s.meta, s.backlog.Restore(now), Idle, map[], map[], s.log)
  }

  ghost function Run(h: Hasher, replicaCount: int, s: State, steps: seq<Step>): State
    requires replicaCount >= 1
  {
    if steps == [] then s
    else Next(h, replicaCount, Run(h, replicaCount, s, steps[..|steps| - 1]), steps[|steps| - 1])
  }

  // ----- The log -----

  function Count(log: seq<Event>, key: string): nat {
    if log == [] then 0 else Count(log[..|log| - 1], key) + (if log[|log| - 1].key == key then 1 else 0)
  }

  /** The n-th event on a key carries version n. */
  ghost predicate LogOrdered(log: seq<Event>) {
    forall i :: 0 <= i < |log| ==> log[i].version == Count(log[..i + 1], log[i].key)
  }

  lemma CountSnoc(log: seq<Event>, e: Event, key: string)
    ensures Count(log + [e], key) == Count(log, key) + (if e.key == key then 1 else 0)
  {
    assert (log + [e])[..|log|] == log;
  }

  lemma LogOrderedSnoc(log: seq<Event>, e: Event)
    requires LogOrdered(log) && e.version == Count(log, e.key) + 1
    ensures LogOrdered(log + [e])
  {
    var log' := log + [e];
    forall i | 0 <= i < |log'| ensures log'[i].version == Count(log'[..i + 1], log'[i].key) {
      if i < |log| {
        assert log'[..i + 1] == log[..i + 1];
      } else {
        assert log'[..i + 1] == log + [e];
        CountSnoc(log, e, e.key);
      }
    }
  }

  lemma {:induction false} CountMonotone(log: seq<Event>, i: nat, j: nat, key: string)
    requires i <= j <= |log|
    ensures Count(log[..i], key) <= Count(log[..j], key)
    decreases j
  {
    if i < j {
      assert log[..j] == log[..j - 1] + [log[j - 1]];
      CountSnoc(log[..j - 1], log[j - 1], key);
      CountMonotone(log, i, j - 1, key);
    }
  }

  /** No two events on a key share a version. */
  lemma VersionsNotReused(log: seq<Event>, i: nat, j: nat)
    requires LogOrdered(log) && i < j < |log| && log[i].key == log[j].key
    ensures log[i].version < log[j].version
  {
    CountMonotone(log, i + 1, j, log[j].key);
    assert log[..j + 1] == log[..j] + [log[j]];
    CountSnoc(log[..j], log[j], log[j].key);
  }

  lemma CommitUnique(log: seq<Event>, a: Event, b: Event)
    requires LogOrdered(log) && a in log && b in log && a.key == b.key && a.version == b.version
    ensures a == b
  {
    var i :| 0 <= i < |log| && log[i] == a;
    var j :| 0 <= j < |log| && log[j] == b;
    if i < j { VersionsNotReused(log, i, j); } else if j < i { VersionsNotReused(log, j, i); }
  }

  // ----- The invariant -----

  /** f describes the bytes committed as its version. */
  ghost predicate Backed(h: Hasher, log: seq<Event>, f: FileMetadata) {
    exists data :: Committed(f.key, f.version, data) in log && FileDescribes(h, data, f)
  }

  /** What was committed as the version of f. */
  ghost function CommittedData(h: Hasher, log: seq<Event>, f: FileMetadata): (data: Bytes)
    requires Backed(h, log, f)
    ensures Committed(f.key, f.version, data) in log && FileDescribes(h, data, f)
  {
    var data :| Committed(f.key, f.version, data) in log && FileDescribes(h, data, f);
    data
  }

  ghost predicate TaskBacked(h: Hasher, log: seq<Event>, t: ReplicationTask) {
    exists data :: Committed(t.key, t.version, data) in log && t.checksum == h(data) && t.chunks == Partition(h, data)
  }

  /** What is true of every copy task, for as long as it is queued. */
  ghost predicate TaskOk(h: Hasher, log: seq<Event>, m: Meta, t: ReplicationTask) {
    && t.id == TaskId(t.key, t.version, t.source, t.target)
    && t.source != t.target
    && t.version <= m.Version(t.key)
    && TaskBacked(h, log, t)
  }

  /** What is true of a live file record for as long as somebody holds a copy of it. */
  ghost predicate SnapshotOk(h: Hasher, log: seq<Event>, m: Meta, f: FileMetadata) {
    FileOk(f) && f.version <= m.Version(f.key) && Backed(h, log, f)
  }

  ghost predicate LiveOk(h: Hasher, log: seq<Event>, m: Meta) {
    forall k <- m.files :: !m.files[k].deleted ==> Backed(h, log, m.files[k])
  }

  ghost predicate TasksOk(h: Hasher, log: seq<Event>, m: Meta, b: Backlog) {
    forall id <- b.tasks :: TaskOk(h, log, m, b.tasks[id])
  }

  ghost predicate ReadersOk(h: Hasher, log: seq<Event>, m: Meta, readers: map<nat, ReadPlan>) {
    forall r <- readers :: SnapshotOk(h, log, m, readers[r].metadata)
  }

  ghost predicate ListingOk(h: Hasher, log: seq<Event>, m: Meta, listing: seq<FileMetadata>) {
    forall f <- listing :: !f.deleted ==> SnapshotOk(h, log, m, f)
  }

  ghost predicate RepairsOk(h: Hasher, log: seq<Event>, m: Meta, repairs: map<nat, seq<FileMetadata>>) {
    forall r <- repairs :: ListingOk(h, log, m, repairs[r])
  }

  /** The holder of the write lock knows the current version of its key. */
  ghost predicate WriterOk(h: Hasher, log: seq<Event>, m: Meta, w: Writer) {
    match w
    case Idle => true
    case Staged(_, _) => true
    case Planned(_, _, plan) => plan.replicas != [] && plan.primary == plan.replicas[0]
    case Writing(prep, data, written) =>
      && prep.version == m.NextVersion(prep.key)
      && Describes(h, data, prep.size, prep.checksum, prep.chunks)
      && written <= |prep.chunks|
      && prep.replicas != [] && prep.primary == prep.replicas[0]
    case Published(f) => !f.deleted && SnapshotOk(h, log, m, f) && f.version == m.Version(f.key)
    case Deleting(f) => f.key in m.files && f.version == m.Version(f.key)
    case Scrubbing(f) => f.version + 1 == m.Version(f.key)
  }

  /** The version of each key is the number of its events. */
  ghost predicate VersionsMatch(m: Meta, log: seq<Event>) {
    forall k :: m.Version(k) == Count(log, k)
  }

  ghost predicate Inv(h: Hasher, s: State) {
    && s.meta.Valid()
    && s.backlog.Valid()
    && LogOrdered(s.log)
    && VersionsMatch(s.meta, s.log)
    && LiveOk(h, s.log, s.meta)
    && TasksOk(h, s.log, s.meta, s.backlog)
    && ReadersOk(h, s.log, s.meta, s.readers)
    && RepairsOk(h, s.log, s.meta, s.repairs)
    && WriterOk(h, s.log, s.meta, s.writer)
  }

  // ----- Frames -----

  /** Nothing recorded is forgotten: later logs extend earlier ones and versions do not go back. */
  ghost predicate Grows(log: seq<Event>, m: Meta, log': seq<Event>, m': Meta) {
    log <= log' && forall k :: m.Version(k) <= m'.Version(k)
  }

  lemma BackedGrows(h: Hasher, log: seq<Event>, log': seq<Event>, f: FileMetadata)
    requires log <= log' && Backed(h, log, f)
    ensures Backed(h, log', f)
  {
    var data :| Committed(f.key, f.version, data) in log && FileDescribes(h, data, f);
    assert Committed(f.key, f.version, data) in log';
  }

  lemma TaskGrows(h: Hasher, log: seq<Event>, m: Meta, log': seq<Event>, m': Meta, t: ReplicationTask)
    requires Grows(log, m, log', m') && TaskOk(h, log, m, t)
    ensures TaskOk(h, log', m', t)
  {
    var data :| Committed(t.key, t.version, data) in log && t.checksum == h(data) && t.chunks == Partition(h, data);
    assert Committed(t.key, t.version, data) in log';
    assert m.Version(t.key) <= m'.Version(t.key);
  }

  lemma SnapshotGrows(h: Hasher, log: seq<Event>, m: Meta, log': seq<Event>, m': Meta, f: FileMetadata)
    requires Grows(log, m, log', m') && SnapshotOk(h, log, m, f)
    ensures SnapshotOk(h, log', m', f)
  {
    BackedGrows(h, log, log', f);
    assert m.Version(f.key) <= m'.Version(f.key);
  }

  /** Queued tasks and held snapshots stay right whatever is published later. */
  lemma HeldGrows(h: Hasher, s: State, log': seq<Event>, m': Meta)
    requires Inv(h, s) && Grows(s.log, s.meta, log', m')
    ensures TasksOk(h, log', m', s.backlog) && ReadersOk(h, log', m', s.readers) && RepairsOk(h, log', m', s.repairs)
  {
    hide Grows, TaskOk, SnapshotOk, Meta.Valid, Backlog.Valid, Meta.Version, LogOrdered, LiveOk, WriterOk;
    forall id | id in s.backlog.tasks ensures TaskOk(h, log', m', s.backlog.tasks[id]) {
      TaskGrows(h, s.log, s.meta, log', m', s.backlog.tasks[id]);
    }
    forall r | r in s.readers ensures SnapshotOk(h, log', m', s.readers[r].metadata) {
      SnapshotGrows(h, s.log, s.meta, log', m', s.readers[r].metadata);
    }
    forall r, f | r in s.repairs && f in s.repairs[r] && !f.deleted ensures SnapshotOk(h, log', m', f) {
      assert ListingOk(h, s.log, s.meta, s.repairs[r]);
      SnapshotGrows(h, s.log, s.meta, log', m', f);
    }
  }

  /** The records agree in everything but replica states and time stamps. */
  ghost predicate SameRecord(f: FileMetadata, g: FileMetadata) {
    g == f.(replicas := g.replicas, updatedAt := g.updatedAt)
  }

  ghost predicate SameFiles(m: Meta, m': Meta) {
    m.files.Keys == m'.files.Keys && forall k <- m.files :: SameRecord(m.files[k], m'.files[k])
  }

  /** Changing nodes, replica states, the queue, readers and repairs touches nothing the writer relies on. */
  lemma QuietKeeps(h: Hasher, s: State, m': Meta)
    requires Inv(h, s) && SameFiles(s.meta, m')
    ensures Grows(s.log, s.meta, s.log, m')
    ensures LiveOk(h, s.log, m') && WriterOk(h, s.log, m', s.writer)
    ensures VersionsMatch(m', s.log)
  {
    forall k ensures m'.Version(k) == s.meta.Version(k) { }
    forall k | k in m'.files && !m'.files[k].deleted ensures Backed(h, s.log, m'.files[k]) {
      var f, g := s.meta.files[k], m'.files[k];
      assert SameRecord(f, g) && Backed(h, s.log, f);
      var data :| Committed(f.key, f.version, data) in s.log && FileDescribes(h, data, f);
      assert Committed(g.key, g.version, data) in s.log && FileDescribes(h, data, g);
    }
  }

  lemma QuietStep(h: Hasher, s: State, m': Meta)
    requires Inv(h, s) && SameFiles(s.meta, m') && m'.Valid()
    ensures Inv(h, s.(meta := m'))
  {
    QuietKeeps(h, s, m');
    HeldGrows(h, s, s.log, m');
  }

  lemma NodeStepsQuiet(m: Meta, id: string, addr: string, ttl: int, now: Time)
    requires m.Valid()
    ensures m.UpsertNode(id, addr, now).Valid() && SameFiles(m, m.UpsertNode(id, addr, now))
    ensures m.MarkExpiredNodes(ttl, now).Valid() && SameFiles(m, m.MarkExpiredNodes(ttl, now))
  {
    hide FileOk;
  }

  lemma MarkQuiet(m: Meta, key: string, node: string, state: ReplicaState, now: Time)
    requires m.Valid()
    ensures var m' := m.MarkReplica(key, node, state, now).0; m'.Valid() && SameFiles(m, m')
  {
  }

  lemma AddQuiet(m: Meta, key: string, node: string, state: ReplicaState, now: Time)
    requires m.Valid()
    ensures var m' := m.AddReplica(key, node, state, now).0; m'.Valid() && SameFiles(m, m')
  {
  }

  ghost predicate SameCopy(t: ReplicationTask, u: ReplicationTask) {
    u.id == t.id && u.key == t.key && u.version == t.version && u.checksum == t.checksum && u.chunks == t.chunks
    && u.source == t.source && u.target == t.target
  }

  /** Same tasks, copying the same things. */
  ghost predicate SameCopies(b: Backlog, b': Backlog) {
    b'.Valid() && b'.tasks.Keys == b.tasks.Keys && forall x <- b.tasks :: SameCopy(b.tasks[x], b'.tasks[x])
  }

  /** Queue operations other than Enqueue change how a task runs, never what it copies. */
  lemma TaskStepsQuiet(b: Backlog, id: string, cause: string, now: Time)
    requires b.Valid()
    ensures SameCopies(b, b.MarkRunning(id, now).0)
    ensures SameCopies(b, b.MarkDone(id, now).0)
    ensures SameCopies(b, b.MarkFailed(id, cause, now).0)
  {
    hide SameCopies, Started, Finished, Failed;
    NothingCopied(b);
    if id in b.tasks {
      var t := b.tasks[id];
      TaskKept(t, now, cause);
      OneTaskQuiet(b, id, Started(t, now));
      OneTaskQuiet(b, id, Finished(t, now));
      OneTaskQuiet(b, id, Failed(t, now, cause));
    }
  }

  lemma NothingCopied(b: Backlog)
    requires b.Valid()
    ensures SameCopies(b, b)
  {
  }

  lemma TaskKept(t: ReplicationTask, now: Time, cause: string)
    ensures SameCopy(t, Started(t, now)) && SameCopy(t, Finished(t, now)) && SameCopy(t, Failed(t, now, cause))
  {
  }

  lemma OneTaskQuiet(b: Backlog, id: string, t: ReplicationTask)
    requires b.Valid() && id in b.tasks && SameCopy(b.tasks[id], t)
    ensures SameCopies(b, Backlog(b.tasks[id := t]))
  {
  }

  lemma SweepsQuiet(b: Backlog, now: Time)
    requires b.Valid()
    ensures SameCopies(b, b.RequeueExpiredRunning(now))
    ensures SameCopies(b, b.Restore(now))
  {
    forall id | id in b.tasks
      ensures SameCopy(b.tasks[id], AfterRequeue(b.tasks[id], now)) && SameCopy(b.tasks[id], Restored(b.tasks[id], now))
    {
    }
    hide AfterRequeue, Restored;
  }

  lemma QueueKeeps(h: Hasher, s: State, b': Backlog)
    requires Inv(h, s) && SameCopies(s.backlog, b')
    ensures Inv(h, s.(backlog := b'))
  {
    hide LiveOk, ReadersOk, RepairsOk, WriterOk, LogOrdered, Meta.Valid;
    forall x | x in b'.tasks ensures TaskOk(h, s.log, s.meta, b'.tasks[x]) {
      var t, u := s.backlog.tasks[x], b'.tasks[x];
      assert SameCopy(t, u) && TaskOk(h, s.log, s.meta, t);
      var data :| Committed(t.key, t.version, data) in s.log && t.checksum == h(data) && t.chunks == Partition(h, data);
      assert Committed(u.key, u.version, data) in s.log;
    }
  }

  lemma EnqueueOk(h: Hasher, s: State, ts: seq<ReplicationTask>)
    requires Inv(h, s) && forall t <- ts :: TaskOk(h, s.log, s.meta, t)
    ensures Inv(h, s.(backlog := s.backlog.Enqueue(ts)))
  {
    hide LiveOk, ReadersOk, RepairsOk, WriterOk, LogOrdered, Meta.Valid, TaskOk;
    EnqueueKeeps(s.backlog, ts);
    var b := s.backlog.Enqueue(ts);
    forall id | id in b.tasks ensures TaskOk(h, s.log, s.meta, b.tasks[id]) {
      if id !in s.backlog.tasks {
        var i: nat :| FirstWith(ts, i, id) && b.tasks[id] == ts[i];
        assert ts[i] in ts;
      }
    }
  }

  /** A copy task made from a held record of a live file is a good task. */
  lemma CopyTaskOk(h: Hasher, log: seq<Event>, m: Meta, f: FileMetadata, source: string, target: string, now: Time)
    requires SnapshotOk(h, log, m, f) && source != target
    ensures TaskOk(h, log, m, CopyTask(f, source, target, now))
  {
    hide TaskId;
    var t := CopyTask(f, source, target, now);
    var data :| Committed(f.key, f.version, data) in log && FileDescribes(h, data, f);
    assert Committed(t.key, t.version, data) in log;
  }

  lemma LiveSnapshot(h: Hasher, s: State, key: string)
    requires Inv(h, s) && key in s.meta.files && !s.meta.files[key].deleted
    ensures SnapshotOk(h, s.log, s.meta, s.meta.files[key])
  {
    assert s.meta.files[key].key == key;
  }

  // ----- Steps keep the invariant -----

  lemma ReadStartInv(h: Hasher, s: State, reader: nat, key: string)
    requires Inv(h, s) && ReadCandidates(s.meta, key).Ok?
    ensures Inv(h, s.(readers := s.readers[reader := ReadCandidates(s.meta, key).value]))
  {
    hide LiveOk, TasksOk, RepairsOk, LogOrdered, WriterOk, SnapshotOk, Meta.Valid, Backlog.Valid, HealthyReplicas,
         Prioritized;
    LiveSnapshot(h, s, key);
    assert ReadCandidates(s.meta, key).value.metadata == s.meta.files[key];
  }

  lemma RepairListInv(h: Hasher, s: State, repair: nat)
    requires Inv(h, s)
    ensures Inv(h, s.(repairs := s.repairs[repair := s.meta.ListFiles()]))
  {
    var listing := s.meta.ListFiles();
    forall f | f in listing && !f.deleted ensures SnapshotOk(h, s.log, s.meta, f) {
      assert f in Elements(listing);
      var k :| k in s.meta.files && s.meta.files[k] == f;
      LiveSnapshot(h, s, k);
    }
  }

  lemma RepairEnqueueInv(h: Hasher, s: State, repair: nat, tasks: seq<ReplicationTask>)
    requires Inv(h, s) && repair in s.repairs && forall t <- tasks :: RepairTask(s.repairs[repair], t)
    ensures Inv(h, s.(backlog := s.backlog.Enqueue(tasks), repairs := s.repairs - {repair}))
  {
    hide CopyTask, SourceOf, SnapshotOk, TaskOk, LiveOk, ReadersOk, WriterOk, LogOrdered, Meta.Valid, Backlog.Valid;
    assert ListingOk(h, s.log, s.meta, s.repairs[repair]);
    forall t | t in tasks ensures TaskOk(h, s.log, s.meta, t) {
      var f :| f in s.repairs[repair] && !f.deleted && SourceOf(f) != t.target
               && t == CopyTask(f, SourceOf(f), t.target, t.createdAt);
      CopyTaskOk(h, s.log, s.meta, f, SourceOf(f), t.target, t.createdAt);
    }
    EnqueueOk(h, s, tasks);
  }

  lemma PutEnqueueInv(h: Hasher, s: State, now: Time)
    requires Inv(h, s) && s.writer.Published? && TasksOf(s.writer.file, now).Ok?
    ensures Inv(h, s.(backlog := s.backlog.Enqueue(TasksOf(s.writer.file, now).value)))
  {
    hide CopyTask, SnapshotOk, TaskOk, LiveOk, ReadersOk, RepairsOk, LogOrdered, Meta.Valid, Backlog.Valid, TasksOf;
    var f := s.writer.file;
    var ts := TasksOf(f, now).value;
    forall t | t in ts ensures TaskOk(h, s.log, s.meta, t) {
      SnapshotFileOk(h, s.log, s.meta, f);
      TasksOfCover(f, now, t);
      CopyTaskOk(h, s.log, s.meta, f, f.primary, t.target, now);
    }
    EnqueueOk(h, s, ts);
  }

  lemma SnapshotFileOk(h: Hasher, log: seq<Event>, m: Meta, f: FileMetadata)
    requires SnapshotOk(h, log, m, f)
    ensures FileOk(f)
  {
  }

  /** Publishing under the lock: the version is the prepared one, and the new record describes the staged bytes. */
  lemma PublishedRecord(h: Hasher, s: State, now: Time)
    requires Inv(h, s) && s.writer.Writing?
    ensures var f := FileOf(s.meta, s.writer.prep, now);
      && f.key == s.writer.prep.key && f.version == s.writer.prep.version == s.meta.NextVersion(f.key)
      && !f.deleted && FileOk(f) && f.primary in f.replicas
      && FileDescribes(h, s.writer.data, f)
  {
    var prep := s.writer.prep;
    assert NodeIds(prep.replicas)[0] == prep.primary.id;
  }

  lemma StoreVersions(m: Meta, f: FileMetadata)
    requires m.Valid() && FileOk(f)
    ensures m.Store(f).Valid()
    ensures forall k :: m.Store(f).Version(k) == if k == f.key then f.version else m.Version(k)
  {
  }

  lemma LiveAfterPublish(h: Hasher, log: seq<Event>, m: Meta, f: FileMetadata, data: Bytes)
    requires LiveOk(h, log, m) && FileDescribes(h, data, f)
    ensures var log' := log + [Committed(f.key, f.version, data)];
      LiveOk(h, log', m.Store(f)) && Backed(h, log', f)
  {
    var e := Committed(f.key, f.version, data);
    var m', log' := m.Store(f), log + [e];
    assert e in log';
    forall k | k in m'.files && !m'.files[k].deleted ensures Backed(h, log', m'.files[k]) {
      if k != f.key { BackedGrows(h, log, log', m'.files[k]); }
    }
  }

  lemma PublishInv(h: Hasher, s: State, now: Time)
    requires Inv(h, s) && s.writer.Writing?
    ensures var f := FileOf(s.meta, s.writer.prep, now);
      Inv(h, s.(meta := s.meta.Store(f), writer := Published(f),
        log := s.log + [Committed(f.key, f.version, s.writer.data)]))
  {
    hide LiveOk, TasksOk, ReadersOk, RepairsOk, LogOrdered, Meta.Valid, Backlog.Valid, FileOf, Meta.Store,
         FileDescribes, Backed, VersionsMatch, Count, FileOk, Meta.Version, Meta.NextVersion;
    var f := FileOf(s.meta, s.writer.prep, now);
    var e := Committed(f.key, f.version, s.writer.data);
    PublishedRecord(h, s, now);
    NextIsCount(s.meta, s.log, f.key);
    StoreVersions(s.meta, f);
    VersionsAdvance(s.meta, s.meta.Store(f), s.log, e);
    LogOrderedSnoc(s.log, e);
    HeldGrows(h, s, s.log + [e], s.meta.Store(f));
    LiveAfterPublish(h, s.log, s.meta, f, s.writer.data);
  }

  lemma NextIsCount(m: Meta, log: seq<Event>, key: string)
    requires VersionsMatch(m, log)
    ensures m.NextVersion(key) == Count(log, key) + 1 && m.NextVersion(key) == m.Version(key) + 1
  {
  }

  /** An event that stores a record with the next version of its key keeps versions equal to counts. */
  lemma VersionsAdvance(m: Meta, m': Meta, log: seq<Event>, e: Event)
    requires VersionsMatch(m, log)
    requires forall k :: m'.Version(k) == if k == e.key then e.version else m.Version(k)
    requires e.version == m.NextVersion(e.key)
    ensures Grows(log, m, log + [e], m')
    ensures VersionsMatch(m', log + [e])
  {
    forall k ensures m'.Version(k) == Count(log + [e], k) { CountSnoc(log, e, k); }
  }

  lemma TombstoneInv(h: Hasher, s: State, now: Time)
    requires Inv(h, s) && s.writer.Deleting?
    ensures var f := s.writer.file;
      && f.key in s.meta.files
      && s.meta.Tombstone(f.key, now).1 == Ok(Tombstoned(s.meta.files[f.key], now))
      && s.meta.files[f.key].key == f.key
      && Inv(h, s.(meta := s.meta.Tombstone(f.key, now).0, writer := Scrubbing(f),
                   log := s.log + [Removed(f.key, s.meta.Version(f.key) + 1)]))
  {
    hide TasksOk, ReadersOk, RepairsOk, LiveOk, Count, LogOrdered, Backlog.Valid, Meta.Valid, Meta.Tombstone,
         Meta.Version, Tombstoned, VersionsMatch, Meta.NextVersion;
    var f := s.writer.file;
    var e := Removed(f.key, s.meta.Version(f.key) + 1);
    var m', log' := s.meta.Tombstone(f.key, now).0, s.log + [e];
    TombstonedMeta(h, s.log, s.meta, f.key, now, e);
    NextIsCount(s.meta, s.log, f.key);
    VersionsAdvance(s.meta, m', s.log, e);
    LogOrderedSnoc(s.log, e);
    HeldGrows(h, s, log', m');
  }

  lemma TombstonedMeta(h: Hasher, log: seq<Event>, m: Meta, key: string, now: Time, e: Event)
    requires m.Valid() && LiveOk(h, log, m) && key in m.files
    ensures var m' := m.Tombstone(key, now).0;
      && m'.Valid() && LiveOk(h, log + [e], m')
      && m.Tombstone(key, now).1 == Ok(Tombstoned(m.files[key], now)) && m.files[key].key == key
      && m.NextVersion(key) == m.Version(key) + 1
      && forall k :: m'.Version(k) == if k == key then m.Version(key) + 1 else m.Version(k)
  {
    hide Backed;
    var m' := m.Tombstone(key, now).0;
    forall k | k in m'.files && !m'.files[k].deleted ensures Backed(h, log + [e], m'.files[k]) {
      BackedGrows(h, log, log + [e], m'.files[k]);
    }
  }

  lemma WriterMoves(h: Hasher, s: State, w: Writer)
    requires Inv(h, s) && WriterOk(h, s.log, s.meta, w)
    ensures Inv(h, s.(writer := w))
  {
  }

  /** The steps that only move the writer. */
  lemma WriterStepInv(h: Hasher, replicaCount: int, s: State, step: Step)
    requires replicaCount >= 1 && Inv(h, s)
    requires step in {PutPlan, PutPrepare, PutChunk, PutFail, DeleteDone} || step.PutStage? || step.DeleteLook?
    ensures Inv(h, Next(h, replicaCount, s, step))
  {
    hide LiveOk, TasksOk, ReadersOk, RepairsOk, LogOrdered, Backlog.Valid, Meta.HealthyNodes, Partition, SnapshotOk;
    var w := Next(h, replicaCount, s, step).writer;
    assert Next(h, replicaCount, s, step) == s.(writer := w);
    assert WriterOk(h, s.log, s.meta, w);
    WriterMoves(h, s, w);
  }

  lemma MetaStepInv(h: Hasher, replicaCount: int, s: State, step: Step)
    requires replicaCount >= 1 && Inv(h, s)
    requires step.Heartbeat? || step.ExpireNodes? || step.Mark? || step.RepairAdd?
    ensures Inv(h, Next(h, replicaCount, s, step))
  {
    hide LiveOk, TasksOk, ReadersOk, RepairsOk, LogOrdered, Meta.Valid, Backlog.Valid, WriterOk, SameFiles;
    match step
    case Heartbeat(id, addr, now) =>
      NodeStepsQuiet(s.meta, id, addr, 0, now);
      QuietStep(h, s, s.meta.UpsertNode(id, addr, now));
    case ExpireNodes(ttl, now) =>
      NodeStepsQuiet(s.meta, "", "", ttl, now);
      QuietStep(h, s, s.meta.MarkExpiredNodes(ttl, now));
    case Mark(key, node, state, now) =>
      MarkQuiet(s.meta, key, node, state, now);
      QuietStep(h, s, s.meta.MarkReplica(key, node, state, now).0);
    case RepairAdd(key, node, now) =>
      AddQuiet(s.meta, key, node, ReplicaPending, now);
      QuietStep(h, s, s.meta.AddReplica(key, node, ReplicaPending, now).0);
  }

  lemma QueueStepInv(h: Hasher, replicaCount: int, s: State, step: Step)
    requires replicaCount >= 1 && Inv(h, s)
    requires step.StartTask? || step.FinishTask? || step.FailTask? || step.Sweep? || step.Restart?
    ensures Inv(h, Next(h, replicaCount, s, step))
  {
    hide LiveOk, TasksOk, ReadersOk, RepairsOk, LogOrdered, Meta.Valid, Backlog.Valid, WriterOk, SameCopies;
    match step
    case StartTask(id, now) =>
      TaskStepsQuiet(s.backlog, id, "", now);
      QueueKeeps(h, s, s.backlog.MarkRunning(id, now).0);
    case FinishTask(id, now) =>
      TaskStepsQuiet(s.backlog, id, "", now);
      QueueKeeps(h, s, s.backlog.MarkDone(id, now).0);
    case FailTask(id, cause, now) =>
      TaskStepsQuiet(s.backlog, id, cause, now);
      QueueKeeps(h, s, s.backlog.MarkFailed(id, cause, now).0);
    case Sweep(now) =>
      SweepsQuiet(s.backlog, now);
      QueueKeeps(h, s, s.backlog.RequeueExpiredRunning(now));
    case Restart(now) =>
      SweepsQuiet(s.backlog, now);
      QueueKeeps(h, s, s.backlog.Restore(now));
      DropAll(h, s.(backlog := s.backlog.Restore(now)));
  }

  /** The steps that publish. */
  lemma PublishStepInv(h: Hasher, replicaCount: int, s: State, step: Step)
    requires replicaCount >= 1 && Inv(h, s) && (step.PutPublish? || step.PutEnqueue? || step.DeleteTombstone?)
    ensures Inv(h, Next(h, replicaCount, s, step))
  {
    hide LiveOk, TasksOk, ReadersOk, RepairsOk, LogOrdered, Meta.Valid, Backlog.Valid, SnapshotOk, TasksOf, FileOf,
         Backlog.Enqueue, Meta.Store, Meta.Tombstone;
    match step
    case PutPublish(now) => if s.writer.Writing? { PublishInv(h, s, now); }
    case PutEnqueue(now) =>
      if s.writer.Published? && TasksOf(s.writer.file, now).Ok? { PutEnqueueInv(h, s, now); }
    case DeleteTombstone(now) => if s.writer.Deleting? { TombstoneInv(h, s, now); }
  }

  /** The steps that start or end a read or a repair. */
  lemma SnapshotStepInv(h: Hasher, replicaCount: int, s: State, step: Step)
    requires replicaCount >= 1 && Inv(h, s)
      && (step.ReadStart? || step.ReadEnd? || step.RepairList? || step.RepairEnqueue?)
    ensures Inv(h, Next(h, replicaCount, s, step))
  {
    hide Inv, ReadCandidates, Backlog.Enqueue, Meta.ListFiles, RepairTask;
    match step
    case ReadStart(reader, key) => if ReadCandidates(s.meta, key).Ok? { ReadStartInv(h, s, reader, key); }
    case ReadEnd(reader) => DropReader(h, s, reader);
    case RepairList(repair) => RepairListInv(h, s, repair);
    case RepairEnqueue(repair, tasks) =>
      if repair in s.repairs && forall t <- tasks :: RepairTask(s.repairs[repair], t) {
        RepairEnqueueInv(h, s, repair, tasks);
      }
  }

  lemma NextInv(h: Hasher, replicaCount: int, s: State, step: Step)
    requires replicaCount >= 1 && Inv(h, s)
    ensures Inv(h, Next(h, replicaCount, s, step))
  {
    hide Inv, Next;
    if step.PutPublish? || step.PutEnqueue? || step.DeleteTombstone? {
      PublishStepInv(h, replicaCount, s, step);
    } else if step.ReadStart? || step.ReadEnd? || step.RepairList? || step.RepairEnqueue? {
      SnapshotStepInv(h, replicaCount, s, step);
    } else if step.Heartbeat? || step.ExpireNodes? || step.Mark? || step.RepairAdd? {
      MetaStepInv(h, replicaCount, s, step);
    } else if step.StartTask? || step.FinishTask? || step.FailTask? || step.Sweep? || step.Restart? {
      QueueStepInv(h, replicaCount, s, step);
    } else {
      WriterStepInv(h, replicaCount, s, step);
    }
  }

  lemma DropReader(h: Hasher, s: State, reader: nat)
    requires Inv(h, s)
    ensures Inv(h, s.(readers := s.readers - {reader}))
  {
  }

  lemma DropAll(h: Hasher, s: State)
    requires Inv(h, s)
    ensures Inv(h, State(s.meta, s.backlog, Idle, map[], map[], s.log))
  {
  }

  /** A restart forgets what was in flight, keeps the records, and leaves no entry running. */
  lemma RestartForgets(h: Hasher, replicaCount: int, s: State, now: Time)
    requires replicaCount >= 1
    ensures var s' := Next(h, replicaCount, s, Restart(now));
      && s'.meta == s.meta && s'.log == s.log && s'.writer.Idle? && s'.readers == map[] && s'.repairs == map[]
      && s'.backlog.tasks.Keys == s.backlog.tasks.Keys
      && forall id <- s.backlog.tasks ::
           && s'.backlog.tasks[id].state != TaskRunning
           && (s.backlog.tasks[id].state == TaskRunning ==> s'.backlog.tasks[id].state == TaskPending)
  {
  }

  lemma {:induction false} RunInv(h: Hasher, replicaCount: int, steps: seq<Step>)
    requires replicaCount >= 1
    ensures Inv(h, Run(h, replicaCount, INIT, steps))
  {
    if steps != [] {
      RunInv(h, replicaCount, steps[..|steps| - 1]);
      NextInv(h, replicaCount, Run(h, replicaCount, INIT, steps[..|steps| - 1]), steps[|steps| - 1]);
    }
  }

  // ----- What holds of every run -----

  /**
   * Whatever the storage nodes answer and however the steps interleave: if a running Get accepts the bytes of a
   * replica, they are the bytes of the one Put that committed the version in the metadata it returns.
   */
  lemma {:induction false} ReadSafety(h: Hasher, replicaCount: int, steps: seq<Step>, reader: nat, responses: Responses)
    requires replicaCount >= 1 && CollisionFree(h)
    requires reader in Run(h, replicaCount, INIT, steps).readers
    requires Assemble(h, Run(h, replicaCount, INIT, steps).readers[reader].metadata, responses).Ok?
    ensures var s := Run(h, replicaCount, INIT, steps);
      var f := s.readers[reader].metadata;
      var bytes := Assemble(h, f, responses).value;
      && Committed(f.key, f.version, bytes) in s.log
      && (forall e <- s.log :: e.key == f.key && e.version == f.version ==> e == Committed(f.key, f.version, bytes))
  {
    var s := Run(h, replicaCount, INIT, steps);
    var f := s.readers[reader].metadata;
    RunInv(h, replicaCount, steps);
    assert SnapshotOk(h, s.log, s.meta, f);
    var data :| Committed(f.key, f.version, data) in s.log && FileDescribes(h, data, f);
    AssembleSound(h, f, data, responses);
    forall e | e in s.log && e.key == f.key && e.version == f.version ensures e == Committed(f.key, f.version, data) {
      CommitUnique(s.log, e, Committed(f.key, f.version, data));
    }
  }

  /**
   * Every queued task, in whatever state and however old, copies between two different nodes, a version no newer than
   * the current one, with exactly the checksum and manifest that were committed under that key and version.
   */
  lemma TaskManifests(h: Hasher, replicaCount: int, steps: seq<Step>, id: string)
    requires replicaCount >= 1 && id in Run(h, replicaCount, INIT, steps).backlog.tasks
    ensures var s := Run(h, replicaCount, INIT, steps);
      var t := s.backlog.tasks[id];
      && t.id == id && t.source != t.target && t.version <= s.meta.Version(t.key)
      && (exists data :: Committed(t.key, t.version, data) in s.log)
      && (forall data :: Committed(t.key, t.version, data) in s.log ==>
           t.checksum == h(data) && t.chunks == Partition(h, data))
  {
    var s := Run(h, replicaCount, INIT, steps);
    var t := s.backlog.tasks[id];
    RunInv(h, replicaCount, steps);
    assert TaskOk(h, s.log, s.meta, t);
    var data :| Committed(t.key, t.version, data) in s.log && t.checksum == h(data) && t.chunks == Partition(h, data);
    forall other | Committed(t.key, t.version, other) in s.log ensures other == data {
      CommitUnique(s.log, Committed(t.key, t.version, data), Committed(t.key, t.version, other));
    }
  }

  /**
   * With node IDs free of ':', a task that Enqueue skips because its ID is queued already is the same copy as the
   * queued one, down to the manifest.
   */
  lemma SkippedIsSameCopy(h: Hasher, replicaCount: int, steps: seq<Step>, t: ReplicationTask)
    requires replicaCount >= 1
    requires var s := Run(h, replicaCount, INIT, steps);
      && t.id in s.backlog.tasks && TaskOk(h, s.log, s.meta, t)
      && ':' !in s.backlog.tasks[t.id].source && ':' !in s.backlog.tasks[t.id].target && ':' !in t.source
           && ':' !in t.target
    ensures SameCopy(Run(h, replicaCount, INIT, steps).backlog.tasks[t.id], t)
  {
    hide TaskId, Partition;
    var s := Run(h, replicaCount, INIT, steps);
    RunInv(h, replicaCount, steps);
    var u := s.backlog.tasks[t.id];
    assert u.id == t.id && TaskOk(h, s.log, s.meta, u);
    TaskIdInjective(u.key, u.version, u.source, u.target, t.key, t.version, t.source, t.target);
    var a :| Committed(t.key, t.version, a) in s.log && t.checksum == h(a) && t.chunks == Partition(h, a);
    var b :| Committed(u.key, u.version, b) in s.log && u.checksum == h(b) && u.chunks == Partition(h, b);
    CommitUnique(s.log, Committed(t.key, t.version, a), Committed(u.key, u.version, b));
  }

  /**
   * The version under which a Put wrote its chunks is the version it publishes, whatever ran in between, and no
   * earlier event on the key carries it.
   */
  lemma {:induction false} VersionAgreement(h: Hasher, replicaCount: int, steps: seq<Step>, now: Time)
    requires replicaCount >= 1
    requires var w := Run(h, replicaCount, INIT, steps).writer; w.Writing? && w.written == |w.prep.chunks|
    ensures var s := Run(h, replicaCount, INIT, steps);
      var s' := Next(h, replicaCount, s, PutPublish(now));
      var prep := s.writer.prep;
      && s'.meta.files[prep.key].version == prep.version
      && s'.log == s.log + [Committed(prep.key, prep.version, s.writer.data)]
      && FileDescribes(h, s.writer.data, s'.meta.files[prep.key])
      && (forall e <- s.log :: e.key == prep.key ==> e.version < prep.version)
  {
    hide Inv, FileOf, FileOk, FileDescribes, Run, Meta.NextVersion;
    var s := Run(h, replicaCount, INIT, steps);
    RunInv(h, replicaCount, steps);
    PublishedRecord(h, s, now);
    forall e | e in s.log && e.key == s.writer.prep.key ensures e.version < s.writer.prep.version {
      EarlierEvent(h, s, e);
    }
  }

  /** Every event is older than the next version of its key. */
  lemma EarlierEvent(h: Hasher, s: State, e: Event)
    requires Inv(h, s) && e in s.log
    ensures e.version < s.meta.NextVersion(e.key)
  {
    hide LiveOk, TasksOk, ReadersOk, RepairsOk, Meta.Valid, Backlog.Valid, WriterOk;
    var i :| 0 <= i < |s.log| && s.log[i] == e;
    CountMonotone(s.log, i + 1, |s.log|, e.key);
    assert s.log[..|s.log|] == s.log;
  }

  /** The version of a key is the number of its commits plus its tombstones, and events carry increasing versions. */
  lemma VersionsCountEvents(h: Hasher, replicaCount: int, steps: seq<Step>, key: string)
    requires replicaCount >= 1
    ensures var s := Run(h, replicaCount, INIT, steps);
      && s.meta.Version(key) == Count(s.log, key)
      && (forall i, j :: 0 <= i < j < |s.log| && s.log[i].key == s.log[j].key ==> s.log[i].version < s.log[j].version)
  {
    RunInv(h, replicaCount, steps);
    var s := Run(h, replicaCount, INIT, steps);
    forall i, j | 0 <= i < j < |s.log| && s.log[i].key == s.log[j].key ensures s.log[i].version < s.log[j].version {
      VersionsNotReused(s.log, i, j);
    }
  }

  /** Does this step, taken in s, publish a new version of key? */
  ghost predicate Rewrites(s: State, step: Step, key: string) {
    step.PutPublish? && s.writer.Writing? && s.writer.written == |s.writer.prep.chunks| && s.writer.prep.key == key
  }

  /** No step of the continuation publishes a new version of key. */
  ghost predicate NotRewritten(h: Hasher, replicaCount: int, s: State, steps: seq<Step>, key: string)
    requires replicaCount >= 1
  {
    forall i :: 0 <= i < |steps| ==> !Rewrites(Run(h, replicaCount, s, steps[..i]), steps[i], key)
  }

  lemma StaysDeleted(h: Hasher, replicaCount: int, s: State, step: Step, key: string)
    requires replicaCount >= 1 && key in s.meta.files && s.meta.files[key].deleted && !Rewrites(s, step, key)
    ensures var m := Next(h, replicaCount, s, step).meta; key in m.files && m.files[key].deleted
  {
    hide TasksOf, PlanOf, ReadCandidates, Meta.HealthyNodes, Meta.ListFiles;
  }

  /**
   * From a tombstone until the next Put on the key publishes, every read that starts is refused as deleted, whatever
   * late workers, repairs, reads and restarts do.
   */
  lemma {:induction false} TombstoneFinal(h: Hasher, replicaCount: int, s: State, steps: seq<Step>, key: string)
    requires replicaCount >= 1 && key in s.meta.files && s.meta.files[key].deleted
    requires NotRewritten(h, replicaCount, s, steps, key)
    ensures var s' := Run(h, replicaCount, s, steps);
      key in s'.meta.files && s'.meta.files[key].deleted && ReadCandidates(s'.meta, key) == Err(ErrFileDeleted)
    decreases |steps|
  {
    if steps != [] {
      var before := steps[..|steps| - 1];
      assert forall i :: 0 <= i < |before| ==> before[..i] == steps[..i];
      assert !Rewrites(Run(h, replicaCount, s, before), steps[|steps| - 1], key);
      TombstoneFinal(h, replicaCount, s, before, key);
      StaysDeleted(h, replicaCount, Run(h, replicaCount, s, before), steps[|steps| - 1], key);
    }
  }
}

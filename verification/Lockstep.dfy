/** The persistent queue and metadata store against the in-memory ones, over whole runs. */
module Lockstep {
  import opened Types
  import opened Ordering
  import opened Metadata
  import opened Queue
  import opened Bolt
  import opened DiskQueue
  import opened DiskMetadata

  datatype QueueCall =
    | Enqueue(tasks: seq<ReplicationTask>)
    | Pending
    | MarkRunning(id: string)
    | MarkDone(id: string)
    | MarkFailed(id: string, cause: string)
    | RequeueExpiredRunning

  /** What a caller of the queue gets back: a list of tasks, one task, or an error. */
  datatype QueueAnswer =
    | Nothing
    | Listed(tasks: seq<ReplicationTask>)
    | One(task: ReplicationTask)
    | Refused(error: Error)

  predicate Storable(call: QueueCall) {
    call.Enqueue? ==> forall t <- call.tasks :: KeyFits(t.id)
  }

  function AnswerOf(r: Result<ReplicationTask>): QueueAnswer {
    if r.Ok? then One(r.value) else Refused(r.error)
  }

  ghost predicate SameTasks(memory: MemoryQueue, disk: DiskReplicationTaskQueue)
    reads memory, disk
  {
    disk.Valid() && Intact(disk.codec, disk.bucket) && memory.State() == disk.State()
  }

  method CallMemory(q: MemoryQueue, call: QueueCall, now: Time) returns (a: QueueAnswer)
    requires q.State().Valid()
    modifies q
    ensures q.State().Valid()
    ensures (q.State(), a) == Called(old(q.State()), call, now)
  {
    hide Backlog.Enqueue, Backlog.Pending, Backlog.Valid, Backlog.MarkRunning, Backlog.MarkDone, Backlog.MarkFailed,
         Backlog.Requeued, Backlog.RequeueExpiredRunning, SortedSeq;
    match call
    case Enqueue(ts) => q.Enqueue(ts); a := Nothing;
    case Pending => var ts := q.Pending(now); a := Listed(ts);
    case MarkRunning(id) => var r := q.MarkRunning(id, now); a := AnswerOf(r);
    case MarkDone(id) => var r := q.MarkDone(id, now); a := AnswerOf(r);
    case MarkFailed(id, cause) => var r := q.MarkFailed(id, cause, now); a := AnswerOf(r);
    case RequeueExpiredRunning => var ts := q.RequeueExpiredRunning(now); a := Listed(ts);
  }

  /** The call on the abstract queue. */
  ghost function Called(b: Backlog, call: QueueCall, now: Time): (Backlog, QueueAnswer) {
    match call
    case Enqueue(ts) => (b.Enqueue(ts), Nothing)
    case Pending => (b, Listed(b.Pending(now)))
    case MarkRunning(id) => (b.MarkRunning(id, now).0, AnswerOf(b.MarkRunning(id, now).1))
    case MarkDone(id) => (b.MarkDone(id, now).0, AnswerOf(b.MarkDone(id, now).1))
    case MarkFailed(id, cause) => (b.MarkFailed(id, cause, now).0, AnswerOf(b.MarkFailed(id, cause, now).1))
    case RequeueExpiredRunning => (b.RequeueExpiredRunning(now), Listed(SortedSeq(TaskLess, b.Requeued(now))))
  }

  method CallDisk(q: DiskReplicationTaskQueue, call: QueueCall, now: Time) returns (a: QueueAnswer)
    requires q.Valid() && Intact(q.codec, q.bucket)
    modifies q
    ensures q.Valid() && Intact(q.codec, q.bucket)
    ensures if Storable(call) then (q.State(), a) == Called(old(q.State()), call, now)
      else a == Refused(ErrBucketKey) && q.bucket == old(q.bucket)
  {
    hide Backlog.Enqueue, Backlog.Pending, Backlog.Valid, Backlog.MarkRunning, Backlog.MarkDone, Backlog.MarkFailed,
         Backlog.Requeued, Backlog.RequeueExpiredRunning, SortedSeq, RoundTrips, KeysFit, Decoded;
    match call
    case Enqueue(ts) =>
      var r := q.Enqueue(ts);
      a := if r.Ok? then Nothing else Refused(r.error);
    case Pending => var r := q.Pending(now); a := Listed(r.items);
    case MarkRunning(id) => var r := q.MarkRunning(id, now); a := AnswerOf(r);
    case MarkDone(id) => var r := q.MarkDone(id, now); a := AnswerOf(r);
    case MarkFailed(id, cause) => var r := q.MarkFailed(id, cause, now); a := AnswerOf(r);
    case RequeueExpiredRunning => var r := q.RequeueExpiredRunning(now); a := Listed(r.items);
  }

  /** Any run of storable calls gets the same answers from both queues and leaves the same tasks in them. */
  method RunBothQueues(memory: MemoryQueue, disk: DiskReplicationTaskQueue, calls: seq<(QueueCall, Time)>)
    returns (fromMemory: seq<QueueAnswer>, fromDisk: seq<QueueAnswer>)
    requires SameTasks(memory, disk) && forall c <- calls :: Storable(c.0)
    modifies memory, disk
    ensures fromMemory == fromDisk && |fromDisk| == |calls|
    ensures SameTasks(memory, disk)
  {
    hide Called, Intact, Storable, Backlog.Valid, RoundTrips, KeysFit, Decoded;
    fromMemory, fromDisk := [], [];
    for i := 0 to |calls|
      invariant SameTasks(memory, disk) && fromMemory == fromDisk && |fromDisk| == i
    {
      var a := CallMemory(memory, calls[i].0, calls[i].1);
      var b := CallDisk(disk, calls[i].0, calls[i].1);
      fromMemory, fromDisk := fromMemory + [a], fromDisk + [b];
    }
  }

  datatype MetaCall =
    | UpsertNode(id: string, addr: string)
    | MarkExpiredNodes(ttl: int)
    | HealthyNodes
    | Nodes
    | BeginFileVersion(
        key: string, size: nat, checksum: string, chunks: seq<ChunkMetadata>, primary: string, replicas: seq<string>)
    | NextVersion(key: string)
    | MarkReplica(key: string, nodeId: string, state: ReplicaState)
    | Tombstone(key: string)
    | GetFile(key: string)
    | ListFiles
    | AddReplica(key: string, nodeId: string, state: ReplicaState)

  datatype MetaAnswer =
    | Silence
    | NodeList(nodes: seq<NodeMetadata>)
    | FileList(files: seq<FileMetadata>)
    | Node(node: NodeMetadata)
    | Number(version: nat)
    | Found(file: Option<FileMetadata>)
    | File(record: FileMetadata)
    | Failure(error: Error)

  predicate StorableMeta(call: MetaCall) {
    (call.UpsertNode? ==> KeyFits(call.id)) && (call.BeginFileVersion? ==> KeyFits(call.key))
  }

  function FileAnswer(r: Result<FileMetadata>): MetaAnswer {
    if r.Ok? then File(r.value) else Failure(r.error)
  }

  /** The call on the abstract metadata. */
  ghost function CalledMeta(m: Meta, call: MetaCall, now: Time): (Meta, MetaAnswer) {
    match call
    case UpsertNode(id, addr) => (m.UpsertNode(id, addr, now), Node(NodeMetadata(id, addr, NodeHealthy, now)))
    case MarkExpiredNodes(ttl) => (m.MarkExpiredNodes(ttl, now), Silence)
    case HealthyNodes => (m, NodeList(m.HealthyNodes()))
    case Nodes => (m, NodeList(m.Nodes()))
    case BeginFileVersion(key, size, checksum, chunks, primary, replicas) =>
      var f := m.NewFile(key, size, checksum, chunks, primary, replicas, now);
      (m.Store(f), File(f))
    case NextVersion(key) => (m, Number(m.NextVersion(key)))
    case MarkReplica(key, n, s) => (m.MarkReplica(key, n, s, now).0, FileAnswer(m.MarkReplica(key, n, s, now).1))
    case Tombstone(key) => (m.Tombstone(key, now).0, FileAnswer(m.Tombstone(key, now).1))
    case GetFile(key) => (m, Found(if key in m.files then Some(m.files[key]) else None))
    case ListFiles => (m, FileList(m.ListFiles()))
    case AddReplica(key, n, s) => (m.AddReplica(key, n, s, now).0, FileAnswer(m.AddReplica(key, n, s, now).1))
  }

  method CallMemoryMeta(s: MetadataStore, call: MetaCall, now: Time) returns (a: MetaAnswer)
    requires s.State().Valid()
    modifies s
    ensures s.State().Valid()
    ensures (s.State(), a) == CalledMeta(old(s.State()), call, now)
  {
    hide Meta.Valid, Meta.MarkExpiredNodes, Meta.HealthyNodes, Meta.Nodes, Meta.NewFile, Meta.Store, Meta.NextVersion,
         Meta.MarkReplica, Meta.Tombstone, Meta.ListFiles, Meta.AddReplica;
    match call
    case UpsertNode(id, addr) => var n := s.UpsertNode(id, addr, now); a := Node(n);
    case MarkExpiredNodes(ttl) => s.MarkExpiredNodes(ttl, now); a := Silence;
    case HealthyNodes => var ns := s.HealthyNodes(); a := NodeList(ns);
    case Nodes => var ns := s.Nodes(); a := NodeList(ns);
    case BeginFileVersion(key, size, checksum, chunks, primary, replicas) =>
      var f := s.BeginFileVersion(key, size, checksum, chunks, primary, replicas, now);
      a := File(f);
    case NextVersion(key) => var v := s.NextVersion(key); a := Number(v);
    case MarkReplica(key, n, state) => var r := s.MarkReplica(key, n, state, now); a := FileAnswer(r);
    case Tombstone(key) => var r := s.Tombstone(key, now); a := FileAnswer(r);
    case GetFile(key) => var f := s.GetFile(key); a := Found(f);
    case ListFiles => var fs := s.ListFiles(); a := FileList(fs);
    case AddReplica(key, n, state) => var r := s.AddReplica(key, n, state, now); a := FileAnswer(r);
  }

  method CallDiskMeta(s: DiskMetadataStore, call: MetaCall, now: Time) returns (a: MetaAnswer)
    requires s.Valid() && s.Readable()
    modifies s
    ensures s.Valid() && s.Readable()
    ensures if StorableMeta(call) then (s.State(), a) == CalledMeta(old(s.State()), call, now)
      else a == Failure(ErrBucketKey) && s.State() == old(s.State())
  {
    hide Meta.Valid, Meta.MarkExpiredNodes, Meta.HealthyNodes, Meta.Nodes, Meta.NewFile, Meta.Store, Meta.NextVersion,
         Meta.MarkReplica, Meta.Tombstone, Meta.ListFiles, Meta.AddReplica, RoundTrips, KeysFit, Decoded;
    match call
    case UpsertNode(id, addr) =>
      var n := s.UpsertNode(id, addr, now);
      a := if n.Ok? then Node(n.value) else Failure(n.error);
    case MarkExpiredNodes(ttl) => var _ := s.MarkExpiredNodes(ttl, now); a := Silence;
    case HealthyNodes => var ns := s.HealthyNodes(); a := NodeList(ns.value);
    case Nodes => var ns := s.Nodes(); a := NodeList(ns.items);
    case BeginFileVersion(key, size, checksum, chunks, primary, replicas) =>
      var f := s.BeginFileVersion(key, size, checksum, chunks, primary, replicas, now);
      a := FileAnswer(f);
    case NextVersion(key) => var v := s.NextVersion(key); a := Number(v.value);
    case MarkReplica(key, n, state) => var r := s.MarkReplica(key, n, state, now); a := FileAnswer(r);
    case Tombstone(key) => var r := s.Tombstone(key, now); a := FileAnswer(r);
    case GetFile(key) => var f := s.GetFile(key); a := Found(f.value);
    case ListFiles => var fs := s.ListFiles(); a := FileList(fs.items);
    case AddReplica(key, n, state) => var r := s.AddReplica(key, n, state, now); a := FileAnswer(r);
  }

  ghost predicate SameRecords(memory: MetadataStore, disk: DiskMetadataStore)
    reads memory, disk
  {
    disk.Valid() && disk.Readable() && memory.State() == disk.State()
  }

  /** Any run of storable calls gets the same answers from both stores and leaves the same records in them. */
  method RunBothStores(memory: MetadataStore, disk: DiskMetadataStore, calls: seq<(MetaCall, Time)>)
    returns (fromMemory: seq<MetaAnswer>, fromDisk: seq<MetaAnswer>)
    requires SameRecords(memory, disk) && forall c <- calls :: StorableMeta(c.0)
    modifies memory, disk
    ensures fromMemory == fromDisk && |fromDisk| == |calls|
    ensures SameRecords(memory, disk)
  {
    hide CalledMeta, Intact, StorableMeta, Meta.Valid, RoundTrips, KeysFit, Decoded;
    fromMemory, fromDisk := [], [];
    for i := 0 to |calls|
      invariant SameRecords(memory, disk) && fromMemory == fromDisk && |fromDisk| == i
    {
      var a := CallMemoryMeta(memory, calls[i].0, calls[i].1);
      var b := CallDiskMeta(disk, calls[i].0, calls[i].1);
      fromMemory, fromDisk := fromMemory + [a], fromDisk + [b];
    }
  }
}

/** The records of the control plane, its error values, and the shape of a digest. */
module Types {

  type Bytes = seq<bv8>

  /** Nanoseconds; 0 is the zero time that marks an unset stamp. */
  type Time = int

  const ZERO_TIME: Time := 0
  const SECOND: int := 1_000_000_000

  /** A digest function (SHA-256 in hex). Nothing is assumed about it except where a contract says so. */
  type Hasher = Bytes -> string

  ghost predicate CollisionFree(h: Hasher) {
    forall a, b :: h(a) == h(b) ==> a == b
  }

  datatype Error =
    | ErrNoHealthyNodes
    | ErrPrimaryUnavailable
    | ErrTaskNotFound
    | ErrMetadataNotFound
    | ErrReplicaNotFound
    | ErrFileDeleted
    | ErrNoReadableReplicas
    | ErrChecksumMismatch
    | ErrNoPendingTasks
    | ErrShortWrite
    | ErrEof
    | ErrUnexpectedEof
    | ErrIO
    | ErrBucketKey
    | ErrDecode
    | ErrKeySize

  datatype Option<+T> = None | Some(value: T)

  datatype Result<+T> = Ok(value: T) | Err(error: Error)

  datatype ReplicaState = ReplicaPending | ReplicaHealthy | ReplicaStale | ReplicaMissing | ReplicaDeleted

  datatype NodeState = NodeHealthy | NodeDown

  datatype NodeMetadata = NodeMetadata(id: string, addr: string, state: NodeState, lastHeartbeat: Time)

  datatype ReplicaMetadata = ReplicaMetadata(nodeId: string, state: ReplicaState, updatedAt: Time)

  datatype ChunkMetadata = ChunkMetadata(index: nat, offset: nat, size: nat, checksum: string)

  datatype FileMetadata = FileMetadata(
    key: string,
    version: nat,
    size: nat,
    checksum: string,
    primary: string,
    deleted: bool,
    chunks: seq<ChunkMetadata>,
    replicas: map<string, ReplicaMetadata>,
    createdAt: Time,
    updatedAt: Time)

  datatype TaskState = TaskPending | TaskRunning | TaskDone | TaskFailed | TaskDead

  datatype ReplicationTask = ReplicationTask(
    id: string,
    key: string,
    version: nat,
    checksum: string,
    chunks: seq<ChunkMetadata>,
    source: string,
    target: string,
    state: TaskState,
    attempts: nat,
    lastError: string,
    runAfter: Time,
    leaseUntil: Time,
    createdAt: Time,
    updatedAt: Time)

  datatype ReplicaPlan = ReplicaPlan(primary: NodeMetadata, replicas: seq<NodeMetadata>)

  datatype PreparedWrite = PreparedWrite(
    key: string,
    version: nat,
    size: nat,
    checksum: string,
    chunks: seq<ChunkMetadata>,
    primary: NodeMetadata,
    replicas: seq<NodeMetadata>)

  datatype ReadPlan = ReadPlan(metadata: FileMetadata, replicas: seq<ReplicaMetadata>)
}

/** The managed file service: whole writes, reads, deletes and copies over the coordinator and the storage nodes. */
module Service {
  import opened Types
  import opened Ordering
  import opened Chunking
  import opened Objects
  import opened Transfer
  import opened Metadata
  import opened Queue
  import opened Placement
  import opened Coordinator

  // ----- Writing -----

  /** The write of data prepared in state m. */
  ghost function WriteOf(h: Hasher, m: Meta, replicaCount: int, key: string, data: Bytes): Result<PreparedWrite>
    requires replicaCount >= 1
  {
    PrepareIn(m, replicaCount, key, |data|, h(data), Partition(h, data))
  }

  lemma WriteShape(h: Hasher, m: Meta, replicaCount: int, key: string, data: Bytes, now: Time)
    requires replicaCount >= 1 && WriteOf(h, m, replicaCount, key, data).Ok?
    ensures var w := WriteOf(h, m, replicaCount, key, data).value;
      var f := FileOf(m, w, now);
      && w.key == key && w.version == m.NextVersion(key) && w.chunks == Partition(h, data)
      && w.primary == m.HealthyNodes()[0]
      && f.key == key && f.version == w.version && f.primary == w.primary.id && f.chunks == w.chunks
      && !f.deleted && FileDescribes(h, data, f)
      && FileOk(f)
      && (f.primary != "" ==> TasksOf(f, now).Ok?)
      && (f.primary == "" ==> TasksOf(f, now) == Err(ErrPrimaryUnavailable))
  {
    hide Partition, TasksFrom, CopyTargets, Meta.HealthyNodes;
    var w := WriteOf(h, m, replicaCount, key, data).value;
    if w.primary.id != "" { PlannedFileHasTasks(m, w, now); }
  }

  /**
   * The record a write publishes: next version, creation time kept, the first healthy nodes as replicas, the first of
   * them primary and healthy, the others pending.
   */
  lemma PutRecord(h: Hasher, m: Meta, replicaCount: int, key: string, data: Bytes, now: Time)
    requires replicaCount >= 1 && WriteOf(h, m, replicaCount, key, data).Ok?
    ensures var f := FileOf(m, WriteOf(h, m, replicaCount, key, data).value, now);
      var healthy := m.HealthyNodes();
      var count := if |healthy| < replicaCount then |healthy| else replicaCount;
      && f.key == key && f.size == |data| && f.checksum == h(data) && !f.deleted && f.updatedAt == now
      && (key in m.files ==> f.version == m.files[key].version + 1 && f.createdAt == m.files[key].createdAt)
      && (key !in m.files ==> f.version == 1 && f.createdAt == now)
      && healthy != [] && f.primary == healthy[0].id
      && (forall n :: n in f.replicas <==> exists i :: 0 <= i < count && healthy[i].id == n)
      && (forall n <- f.replicas ::
            f.replicas[n] == ReplicaMetadata(n, if n == f.primary then ReplicaHealthy else ReplicaPending, now))
  {
    hide Partition, Meta.HealthyNodes, Meta.NewFile;
    var w := WriteOf(h, m, replicaCount, key, data).value;
    RewriteExact(m, key, |data|, h(data), w.chunks, w.primary.id, NodeIds(w.replicas), now);
    forall n ensures n in NodeIds(w.replicas) <==> exists i :: 0 <= i < |w.replicas| && w.replicas[i].id == n {
      if i :| 0 <= i < |w.replicas| && w.replicas[i].id == n { assert NodeIds(w.replicas)[i] == n; }
    }
  }

  /** The primary of f was written in full, and then some of its chunks were removed. */
  ghost predicate WrittenThenRemoved(before: Contents, after: Contents, f: FileMetadata, data: Bytes) {
    exists written: Contents, removed: set<Place> ::
      && SameOutside(before, written, Places(f.primary, f.key, f.version, f.chunks))
      && Holds(written, f.primary, f.key, f.version, data)
      && removed <= Places(f.primary, f.key, f.version, f.chunks) && after == written - removed
  }

  lemma RemovedAfterWrite(before: Contents, written: Contents, f: FileMetadata, data: Bytes, removed: set<Place>)
    requires SameOutside(before, written, Places(f.primary, f.key, f.version, f.chunks))
    requires Holds(written, f.primary, f.key, f.version, data)
      && removed <= Places(f.primary, f.key, f.version, f.chunks)
    ensures WrittenThenRemoved(before, written - removed, f, data)
  {
    hide Places, Holds, SameOutside;
  }

  /** Every write can be queued after it is published unless a healthy node is registered under the empty ID. */
  lemma EmptyIdIsPrimary(m: Meta)
    requires m.Valid() && m.HealthyNodes() != []
    ensures m.HealthyNodes()[0].id == "" <==> "" in m.nodes && m.nodes[""].state == NodeHealthy
  {
    hide Meta.HealthyNodes;
    HealthyNodesListing(m);
    var nodes := m.HealthyNodes();
    assert nodes[0] in nodes;
    if "" in m.nodes && m.nodes[""].state == NodeHealthy {
      var n := m.nodes[""];
      assert n.id == "" && n in nodes;
      var i :| 0 <= i < |nodes| && nodes[i] == n;
    }
  }

  // ----- Reading -----

  /** The replica state a failed read leads to. */
  function Demotion(e: Error): ReplicaState {
    if e == ErrChecksumMismatch then ReplicaStale else ReplicaMissing
  }

  /** The record after the reads of the first candidates failed with the given errors. */
  function Demoted(m: Meta, key: string, replicas: seq<ReplicaMetadata>, failures: seq<Error>, now: Time): Meta
    requires |failures| <= |replicas|
  {
    if failures == [] then m
    else
      var n := |failures| - 1;
      Demoted(m, key, replicas, failures[..n], now).MarkReplica(key, replicas[n].nodeId, Demotion(failures[n]), now).0
  }

  /** m' differs from m in the first n of the given replicas of key and in nothing else; none of those n is healthy. */
  ghost predicate OnlyTried(m: Meta, m': Meta, key: string, replicas: seq<ReplicaMetadata>, n: nat)
    requires key in m.files && n <= |replicas|
  {
    && m'.nodes == m.nodes && m'.files.Keys == m.files.Keys
    && (forall k <- m.files :: k != key ==> m'.files[k] == m.files[k])
    && OnlyTriedFile(m.files[key], m'.files[key], replicas, n)
  }

  ghost predicate OnlyTriedFile(f: FileMetadata, f': FileMetadata, replicas: seq<ReplicaMetadata>, n: nat)
    requires n <= |replicas|
  {
    && f' == f.(replicas := f'.replicas, updatedAt := f'.updatedAt)
    && f'.replicas.Keys == f.replicas.Keys
    && (forall i :: 0 <= i < n && replicas[i].nodeId in f.replicas ==>
         f'.replicas[replicas[i].nodeId].state != ReplicaHealthy)
    && (forall id <- f.replicas :: (forall i :: 0 <= i < n ==> replicas[i].nodeId != id) ==>
         f'.replicas[id] == f.replicas[id])
  }

  lemma OnlyTriedStep(m: Meta, m': Meta, key: string, replicas: seq<ReplicaMetadata>, n: nat, e: Error, now: Time)
    requires key in m.files && n < |replicas| && OnlyTried(m, m', key, replicas, n)
    ensures OnlyTried(m, m'.MarkReplica(key, replicas[n].nodeId, Demotion(e), now).0, key, replicas, n + 1)
  {
  }

  /** Demoting touches the tried replicas and nothing else; none of them is healthy afterwards. */
  lemma {:induction false} DemotedFile(
      m: Meta, key: string, replicas: seq<ReplicaMetadata>, failures: seq<Error>, now: Time)
    requires key in m.files && |failures| <= |replicas|
    ensures OnlyTried(m, Demoted(m, key, replicas, failures, now), key, replicas, |failures|)
    decreases |failures|
  {
    if failures != [] {
      var n := |failures| - 1;
      DemotedFile(m, key, replicas, failures[..n], now);
      OnlyTriedStep(m, Demoted(m, key, replicas, failures[..n], now), key, replicas, n, failures[n], now);
    }
  }

  lemma DemotedMore(m: Meta, key: string, replicas: seq<ReplicaMetadata>, failures: seq<Error>, e: Error, now: Time)
    requires |failures| < |replicas|
    ensures Demoted(m, key, replicas, failures + [e], now) ==
            Demoted(m, key, replicas, failures, now).MarkReplica(key, replicas[|failures|].nodeId, Demotion(e), now).0
  {
    hide Meta.MarkReplica;
    assert (failures + [e])[..|failures|] == failures;
  }

  /** Chunk i of f is on the node, with the size and hash of the manifest. */
  ghost predicate ChunkFits(h: Hasher, c: Contents, node: string, f: FileMetadata, i: nat)
    requires i < |f.chunks|
  {
    var p := ChunkPlace(node, f.key, f.version, f.chunks[i].index);
    p in c && |c[p]| == f.chunks[i].size && h(c[p]) == f.chunks[i].checksum
  }

  /** The first object of f on the node that is not as it should be is absent, rather than different. */
  ghost predicate LacksObject(h: Hasher, c: Contents, node: string, f: FileMetadata) {
    if f.chunks == [] then PlaceOf(node, f.key, f.version) !in c
    else
      exists i ::
        && 0 <= i < |f.chunks| && ChunkPlace(node, f.key, f.version, f.chunks[i].index) !in c
        && forall j :: 0 <= j < i ==> ChunkFits(h, c, node, f, j)
  }

  /** Where the assembly of a replica stops, and with which error. */
  lemma {:induction false} AssemblyStops(
      h: Hasher, chunks: seq<ChunkMetadata>, responses: Responses, i: nat, total: Bytes) returns (j: nat)
    requires i <= |chunks|
    ensures i <= j <= |chunks|
    ensures forall k :: i <= k < j ==>
      responses(k).Ok? && |responses(k).value| == chunks[k].size && h(responses(k).value) == chunks[k].checksum
    ensures AssembleFrom(h, chunks, responses, i, total).Ok? <==> j == |chunks|
    ensures j < |chunks| && responses(j).Err? ==>
      AssembleFrom(h, chunks, responses, i, total) == Err(responses(j).error)
    ensures j < |chunks| && responses(j).Ok? ==>
      && AssembleFrom(h, chunks, responses, i, total) == Err(ErrChecksumMismatch)
      && !(|responses(j).value| == chunks[j].size && h(responses(j).value) == chunks[j].checksum)
    decreases |chunks| - i
  {
    if i == |chunks| || responses(i).Err? || |responses(i).value| != chunks[i].size
       || h(responses(i).value) != chunks[i].checksum {
      j := i;
    } else {
      j := AssemblyStops(h, chunks, responses, i + 1, total + responses(i).value);
    }
  }

  /** A faithful replica that cannot be read fails for lack of an object, or because something differs. */
  lemma ReadFailure(h: Hasher, c: Contents, node: string, f: FileMetadata)
    requires Assemble(h, f, Answers(c, node, f)).Err?
    ensures Assemble(h, f, Answers(c, node, f)) ==
      Err(if LacksObject(h, c, node, f) then ErrIO else ErrChecksumMismatch)
  {
    hide ChunkPlace, PlaceOf, AssembleFrom;
    var answers := Answers(c, node, f);
    if f.chunks == [] {
      assert answers(0) == Lookup(c, PlaceOf(node, f.key, f.version));
    } else {
      var j := AssemblyStops(h, f.chunks, answers, 0, []);
      forall k | 0 <= k < |f.chunks|
        ensures answers(k) == Lookup(c, ChunkPlace(node, f.key, f.version, f.chunks[k].index))
      {
      }
      forall k | 0 <= k < j ensures ChunkFits(h, c, node, f, k) { }
      if j < |f.chunks| {
        assert !ChunkFits(h, c, node, f, j);
        assert answers(j) == Lookup(c, ChunkPlace(node, f.key, f.version, f.chunks[j].index));
        assert LacksObject(h, c, node, f) <==> answers(j).Err?;
      } else {
        assert !LacksObject(h, c, node, f);
      }
    }
  }

  /** A replica whose read failed on a checksum is stale afterwards, one whose read failed otherwise is missing. */
  lemma {:induction false} DemotedStates(
      m: Meta, key: string, replicas: seq<ReplicaMetadata>, failures: seq<Error>, now: Time, i: nat)
    requires key in m.files && i < |failures| <= |replicas| && replicas[i].nodeId in m.files[key].replicas
    requires NodesDistinct(replicas)
    ensures var (m', n) := (Demoted(m, key, replicas, failures, now), replicas[i].nodeId);
      && key in m'.files && n in m'.files[key].replicas
      && m'.files[key].replicas[n].updatedAt == now
      && m'.files[key].replicas[n].state == if failures[i] == ErrChecksumMismatch then ReplicaStale else ReplicaMissing
    decreases |failures|
  {
    var n := |failures| - 1;
    DemotedFile(m, key, replicas, failures[..n], now);
    if i < n { DemotedStates(m, key, replicas, failures[..n], now, i); }
  }

  /** Candidate i is recorded for what it is: missing if it lacks an object, stale if something differs. */
  ghost predicate ClassifiedAt(h: Hasher, c: Contents, m: Meta, key: string, plan: ReadPlan, i: nat)
    requires i < |plan.replicas|
  {
    var node := plan.replicas[i].nodeId;
    && key in m.files && node in m.files[key].replicas
    && (LacksObject(h, c, node, plan.metadata) ==> m.files[key].replicas[node].state == ReplicaMissing)
    && (!LacksObject(h, c, node, plan.metadata) ==> m.files[key].replicas[node].state == ReplicaStale)
  }

  ghost predicate Classified(h: Hasher, c: Contents, m: Meta, key: string, plan: ReadPlan, n: nat) {
    n <= |plan.replicas| && forall i: nat :: i < n ==> ClassifiedAt(h, c, m, key, plan, i)
  }

  lemma TriedClassified(h: Hasher, c: Contents, m: Meta, key: string, plan: ReadPlan, failures: seq<Error>, now: Time)
    requires m.Valid() && ReadCandidates(m, key) == Ok(plan) && Tried(h, c, plan, failures)
    ensures Classified(h, c, Demoted(m, key, plan.replicas, failures, now), key, plan, |failures|)
  {
    hide LacksObject, Assemble, Answers, Demoted, Placement.ReadCandidates, Meta.Valid;
    ReadOrder(m, key);
    CandidateKey(m, key);
    forall i: nat | i < |failures|
      ensures ClassifiedAt(h, c, Demoted(m, key, plan.replicas, failures, now), key, plan, i)
    {
      CandidateIsHealthy(m, key, i);
      ReadFailure(h, c, plan.replicas[i].nodeId, plan.metadata);
      DemotedStates(m, key, plan.replicas, failures, now, i);
    }
  }

  lemma CandidateKey(m: Meta, key: string)
    requires ReadCandidates(m, key).Ok?
    ensures key in m.files
  {
  }

  ghost predicate NoneHealthy(m: Meta, key: string) {
    key in m.files && forall n <- m.files[key].replicas :: m.files[key].replicas[n].state != ReplicaHealthy
  }

  /** Once every candidate has failed, no replica of the file is healthy. */
  lemma {:induction false} NoneLeftHealthy(m: Meta, key: string, failures: seq<Error>, now: Time)
    requires m.Valid() && ReadCandidates(m, key).Ok? && |failures| == |ReadCandidates(m, key).value.replicas|
    ensures NoneHealthy(Demoted(m, key, ReadCandidates(m, key).value.replicas, failures, now), key)
  {
    hide Demoted, Prioritized, HealthyReplicas, FileOk;
    ReadCandidatesExact(m, key);
    var f := m.files[key];
    var replicas := ReadCandidates(m, key).value.replicas;
    forall i | 0 <= i < |replicas| ensures replicas[i].nodeId in f.replicas { assert replicas[i] in replicas; }
    DemotedFile(m, key, replicas, failures, now);
    var f' := Demoted(m, key, replicas, failures, now).files[key];
    forall n | n in f'.replicas ensures f'.replicas[n].state != ReplicaHealthy {
      if f.replicas[n].state == ReplicaHealthy {
        KeyedReplica(m, key, n);
        var i :| 0 <= i < |replicas| && replicas[i] == f.replicas[n];
      }
    }
  }

  lemma KeyedReplica(m: Meta, key: string, n: string)
    requires m.Valid() && key in m.files && n in m.files[key].replicas
    ensures m.files[key].replicas[n].nodeId == n
  {
  }

  /** Candidate i answered with error failures[i], and (if any is left) the next one gave the result. */
  ghost predicate Tried(h: Hasher, c: Contents, plan: ReadPlan, failures: seq<Error>) {
    |failures| <= |plan.replicas| &&
    forall i :: 0 <= i < |failures| ==>
      Assemble(h, plan.metadata, Answers(c, plan.replicas[i].nodeId, plan.metadata)) == Err(failures[i])
  }

  /**
   * The answer came from candidate i: it is verified against the record, and it is what that node holds if reads
   * work.
   */
  ghost predicate ServedBy(h: Hasher, store: ObjectStore, plan: ReadPlan, i: nat, answer: (Bytes, FileMetadata))
    reads store
  {
    && i < |plan.replicas| && answer.1 == plan.metadata
    && |answer.0| == plan.metadata.size && h(answer.0) == plan.metadata.checksum
    && (store.readsWork ==>
          Assemble(h, plan.metadata, Answers(store.contents, plan.replicas[i].nodeId, plan.metadata)) == Ok(answer.0))
  }

  /** Some healthy replica of f holds all its chunks. */
  ghost predicate HealthyHolder(c: Contents, f: FileMetadata, data: Bytes) {
    exists n <- f.replicas :: f.replicas[n].state == ReplicaHealthy && Holds(c, n, f.key, f.version, data)
  }

  lemma NothingTried(h: Hasher, c: Contents, plan: ReadPlan, m: Meta, key: string, now: Time)
    ensures Tried(h, c, plan, []) && Demoted(m, key, plan.replicas, [], now) == m
  {
  }

  lemma TriedMore(h: Hasher, c: Contents, plan: ReadPlan, failures: seq<Error>, e: Error)
    requires Tried(h, c, plan, failures) && |failures| < |plan.replicas|
    requires Assemble(h, plan.metadata, Answers(c, plan.replicas[|failures|].nodeId, plan.metadata)) == Err(e)
    ensures Tried(h, c, plan, failures + [e])
  {
    hide Assemble, Answers;
  }

  lemma ServedVerified(
      h: Hasher, store: ObjectStore, plan: ReadPlan, i: nat, bytes: Bytes, responses: Responses, data: Bytes)
    requires i < |plan.replicas| && Assemble(h, plan.metadata, responses) == Ok(bytes)
    requires store.readsWork ==>
      Assemble(h, plan.metadata, Answers(store.contents, plan.replicas[i].nodeId, plan.metadata)) == Ok(bytes)
    ensures ServedBy(h, store, plan, i, (bytes, plan.metadata))
    ensures CollisionFree(h) && FileDescribes(h, data, plan.metadata) ==> bytes == data
  {
    if CollisionFree(h) && FileDescribes(h, data, plan.metadata) { AssembleSound(h, plan.metadata, data, responses); }
  }

  lemma CandidateIsHealthy(m: Meta, key: string, i: nat)
    requires m.Valid() && ReadCandidates(m, key).Ok? && i < |ReadCandidates(m, key).value.replicas|
    ensures var (plan, f) := (ReadCandidates(m, key).value, m.files[key]);
      var n := plan.replicas[i].nodeId;
      plan.metadata == f && n in f.replicas && f.replicas[n].state == ReplicaHealthy
  {
    hide Prioritized, HealthyReplicas, FileOk;
    ReadCandidatesExact(m, key);
    assert ReadCandidates(m, key).value.replicas[i] in ReadCandidates(m, key).value.replicas;
  }

  lemma ServedHolds(h: Hasher, c: Contents, m: Meta, key: string, plan: ReadPlan, i: nat, bytes: Bytes, data: Bytes)
    requires m.Valid() && ReadCandidates(m, key) == Ok(plan) && i < |plan.replicas|
    requires CollisionFree(h) && FileDescribes(h, data, plan.metadata)
    requires Assemble(h, plan.metadata, Answers(c, plan.replicas[i].nodeId, plan.metadata)) == Ok(bytes)
    ensures HealthyHolder(c, plan.metadata, data)
  {
    hide Placement.ReadCandidates, Holds, Assemble, Answers, Meta.Valid;
    CandidateIsHealthy(m, key, i);
    AssembleSound(h, plan.metadata, data, Answers(c, plan.replicas[i].nodeId, plan.metadata));
    ReadableIffHolds(h, c, plan.replicas[i].nodeId, plan.metadata, data);
  }

  lemma AllTriedNoneHolds(
      h: Hasher, c: Contents, m: Meta, key: string, plan: ReadPlan, failures: seq<Error>, data: Bytes)
    requires m.Valid() && ReadCandidates(m, key) == Ok(plan) && |failures| == |plan.replicas|
      && Tried(h, c, plan, failures)
    requires CollisionFree(h) && FileDescribes(h, data, plan.metadata)
    ensures !HealthyHolder(c, plan.metadata, data)
  {
    hide Prioritized, HealthyReplicas, Holds, Assemble, Answers, FileOk;
    ReadCandidatesExact(m, key);
    var f := plan.metadata;
    forall n | n in f.replicas && f.replicas[n].state == ReplicaHealthy ensures !Holds(c, n, f.key, f.version, data) {
      KeyedReplica(m, key, n);
      assert f.replicas[n] in plan.replicas;
      var i :| 0 <= i < |plan.replicas| && plan.replicas[i] == f.replicas[n];
      ReadableIffHolds(h, c, n, f, data);
    }
  }

  // ----- Deleting -----

  /** Every place the replicas of f occupy. */
  ghost function FilePlaces(f: FileMetadata, nodes: set<string>): set<Place> {
    set n, p | n in nodes && p in ObjectPlaces(n, f.key, f.version, f.chunks) :: p
  }

  lemma FileUnderKey(m: Meta, key: string)
    requires m.Valid() && key in m.files
    ensures m.files[key].key == key
  {
  }

  lemma NoPlaces(c: Contents, f: FileMetadata, all: set<string>)
    ensures c - FilePlaces(f, all - all) == c && SameOutside(c, c, FilePlaces(f, all))
  {
    hide ObjectPlaces;
  }

  lemma MorePlaces(
      c: Contents, before: Contents, after: Contents, f: FileMetadata, all: set<string>, todo: set<string>, n: string)
    requires n in todo && todo <= all && SameOutside(c, before, FilePlaces(f, all))
    requires SameOutside(before, after, ObjectPlaces(n, f.key, f.version, f.chunks))
    ensures SameOutside(c, after, FilePlaces(f, all))
    ensures before == c - FilePlaces(f, all - todo) && after == before - ObjectPlaces(n, f.key, f.version, f.chunks) ==>
      after == c - FilePlaces(f, all - (todo - {n}))
  {
    hide ObjectPlaces;
    var places := ObjectPlaces(n, f.key, f.version, f.chunks);
    assert places <= FilePlaces(f, all);
    assert all - (todo - {n}) == (all - todo) + {n};
    assert FilePlaces(f, (all - todo) + {n}) == FilePlaces(f, all - todo) + places;
  }

  // ----- Working -----

  /** The queue after one round of work on task t, and the task as it then is. */
  ghost function Worked(
      b: Backlog, t: ReplicationTask, now: Time, later: Time, text: Error -> string, copied: Result<()>)
    : (Backlog, Result<ReplicationTask>)
  {
    var b1 := b.MarkRunning(t.id, now).0;
    if copied.Ok? then b1.MarkDone(t.id, later) else b1.MarkFailed(t.id, text(copied.error), later)
  }

  lemma EndedTask(t: ReplicationTask, now: Time, later: Time, cause: string)
    ensures var (done, failed) := (Finished(Started(t, now), later), Failed(Started(t, now), later, cause));
      done.id == failed.id == t.id && done.key == failed.key == t.key && done.target == failed.target == t.target
  {
  }

  lemma MarkErrors(m: Meta)
    ensures forall key, n, s, now :: m.MarkReplica(key, n, s, now).1 != Err(ErrNoPendingTasks)
  {
  }

  /** Tasks waiting for a worker. */
  ghost function Waiting(b: Backlog): set<string> {
    set id | id in b.tasks && b.tasks[id].state == TaskPending
  }

  lemma PendingIsQueued(b: Backlog, now: Time)
    requires b.Valid() && b.Pending(now) != []
    ensures var t := b.Pending(now)[0];
      t.id in b.tasks && b.tasks[t.id] == t && t.state == TaskPending
  {
    assert b.Pending(now)[0] in b.Pending(now);
  }

  lemma EarliestFirst(b: Backlog, now: Time)
    requires b.Valid() && b.Pending(now) != []
    ensures forall u <- b.tasks.Values ::
      u.state == TaskPending && ReadyToRun(u, now) ==> u == b.Pending(now)[0] || ComesFirst(b.Pending(now)[0], u)
  {
    hide ComesFirst, Backlog.Pending;
    forall u | u in b.tasks.Values && u.state == TaskPending && ReadyToRun(u, now)
      ensures u == b.Pending(now)[0] || ComesFirst(b.Pending(now)[0], u)
    {
      HeadComesFirst(b, now, u);
    }
  }

  /** Starting a task changes nothing the copy looks at. */
  lemma CopyOfStarted(h: Hasher, c: Contents, t: ReplicationTask, task: ReplicationTask, data: Bytes)
    requires task == t.(state := task.state, attempts := task.attempts, leaseUntil := task.leaseUntil,
      updatedAt := task.updatedAt)
    ensures GoodSource(h, c, t, data) <==> GoodSource(h, c, task, data)
    ensures GoodSource(h, c, t, data) ==> t.chunks != []
  {
    hide Holds;
  }

  lemma StartedCopyOutcome(
      h: Hasher, c: Contents, c': Contents, t: ReplicationTask, task: ReplicationTask, ok: bool, data: Bytes)
    requires task == t.(state := task.state, attempts := task.attempts, leaseUntil := task.leaseUntil,
      updatedAt := task.updatedAt)
    ensures CopyOutcome(h, c, c', t, ok) <==> CopyOutcome(h, c, c', task, ok)
    ensures CollisionFree(h) && t.chunks == Partition(h, data) && CopyOutcome(h, c, c', task, true) ==>
      t.chunks != [] && Holds(c', t.target, t.key, t.version, data)
  {
    hide Holds, Verified, Places, ChunkPlace;
    if CollisionFree(h) && t.chunks == Partition(h, data) && CopyOutcome(h, c, c', task, true) {
      CopiedHolds(h, c, c', task, data);
    }
  }

  /** b has the tasks of b0, and those that were not waiting in b0 are as they were. */
  ghost predicate OnlyWaitingMoved(b0: Backlog, b: Backlog) {
    && b.tasks.Keys == b0.tasks.Keys
    && Waiting(b) <= Waiting(b0)
    && forall id <- b0.tasks :: b0.tasks[id].state != TaskPending ==> b.tasks[id] == b0.tasks[id]
  }

  lemma WorkedTask(b: Backlog, t: ReplicationTask, now: Time, later: Time, text: Error -> string, copied: Result<()>)
    requires t.id in b.tasks
    ensures var b2 := Worked(b, t, now, later, text, copied).0;
      && t.id in b2.tasks && b2.tasks == b.tasks[t.id := b2.tasks[t.id]]
      && (copied.Ok? ==> b2.tasks[t.id].state == TaskDone)
  {
  }

  /** One round of work takes its task off the waiting ones for good if the copy succeeds, and adds none. */
  lemma OneLessWaiting(b0: Backlog, b: Backlog, now: Time, later: Time, text: Error -> string, copied: Result<()>)
    requires b.Valid() && b.Pending(now) != [] && OnlyWaitingMoved(b0, b)
    ensures var b2 := Worked(b, b.Pending(now)[0], now, later, text, copied).0;
      && OnlyWaitingMoved(b0, b2)
      && |Waiting(b2)| <= |Waiting(b)| - (if copied.Ok? then 1 else 0)
  {
    hide Backlog.Pending, Backlog.Valid, Worked;
    PendingIsQueued(b, now);
    var t := b.Pending(now)[0];
    var b2 := Worked(b, t, now, later, text, copied).0;
    WorkedTask(b, t, now, later, text, copied);
    assert t.id in Waiting(b);
    Fewer(Waiting(b2), Waiting(b));
    if copied.Ok? {
      assert Waiting(b2) == Waiting(b) - {t.id};
    }
  }

  lemma Fewer<T>(a: set<T>, b: set<T>)
    ensures a <= b ==> |a| <= |b|
  {
    if a <= b { assert b == a + (b - a); }
  }

  // ----- When the drain loop gets everything done -----

  /** What the live files contain, and that every healthy replica of them has it. */
  ghost predicate Honest(h: Hasher, m: Meta, c: Contents, data: map<string, Bytes>) {
    forall k <- m.files :: !m.files[k].deleted ==> k in data && HonestFile(h, m.files[k], c, data[k])
  }

  ghost predicate HonestFile(h: Hasher, f: FileMetadata, c: Contents, data: Bytes) {
    && FileDescribes(h, data, f)
    && forall n <- f.replicas :: f.replicas[n].state == ReplicaHealthy ==> Holds(c, n, f.key, f.version, data)
  }

  /**
   * A waiting copy that can run at once and will succeed: of a current version, from a node that has it to a replica.
   */
  ghost predicate GoodTask(h: Hasher, m: Meta, c: Contents, data: map<string, Bytes>, t: ReplicationTask) {
    && t.runAfter == ZERO_TIME && t.key in m.files && t.key in data
    && !m.files[t.key].deleted && t.version == m.files[t.key].version && t.target in m.files[t.key].replicas
    && GoodSource(h, c, t, data[t.key])
  }

  ghost predicate AllGood(h: Hasher, m: Meta, b: Backlog, c: Contents, data: map<string, Bytes>) {
    forall id <- b.tasks :: b.tasks[id].state == TaskPending ==> GoodTask(h, m, c, data, b.tasks[id])
  }

  /** Some waiting entry copies key to n. */
  ghost predicate CopyWaits(b: Backlog, key: string, n: string) {
    exists id <- b.tasks :: b.tasks[id].state == TaskPending && b.tasks[id].key == key && b.tasks[id].target == n
  }

  /** Every replica of these files that needs a copy has one waiting. */
  ghost predicate Covered(m: Meta, b: Backlog, keys: set<string>) {
    forall k <- keys :: k in m.files && forall n <- m.files[k].replicas :: NeedsCopy(m.files[k].replicas[n].state) ==>
      CopyWaits(b, k, n)
  }

  ghost predicate Steady(h: Hasher, m: Meta, b: Backlog, c: Contents, data: map<string, Bytes>, keys: set<string>) {
    Honest(h, m, c, data) && AllGood(h, m, b, c, data) && Covered(m, b, keys)
  }

  /** m' has the files of m, with the same nodes as replicas. */
  ghost predicate SameReplicaNodes(m: Meta, m': Meta) {
    && m'.files.Keys == m.files.Keys
    && forall k <- m.files ::
         m'.files[k] == m.files[k].(replicas := m'.files[k].replicas, updatedAt := m'.files[k].updatedAt)
         && m'.files[k].replicas.Keys == m.files[k].replicas.Keys
  }

  lemma SameReplicaNodesTwice(m: Meta, m1: Meta, m2: Meta)
    requires SameReplicaNodes(m, m1) && SameReplicaNodes(m1, m2)
    ensures SameReplicaNodes(m, m2)
  {
  }

  /** What a successful copy of t does for any version: the target has its own, everybody else keeps theirs. */
  lemma CopyKeepsHolding(
      h: Hasher, c: Contents, c': Contents, t: ReplicationTask, data: Bytes, node: string, key: string, version: nat,
      bytes: Bytes)
    requires CollisionFree(h) && t.chunks == Partition(h, data) && CopyOutcome(h, c, c', t, true)
    requires key == t.key ==> bytes == data
    ensures Holds(c', t.target, t.key, t.version, data)
    ensures Holds(c, node, key, version, bytes) ==> Holds(c', node, key, version, bytes)
  {
    hide Holds, Partition;
    CopiedHolds(h, c, c', t, data);
    if node != t.target || key != t.key || version != t.version {
      OutcomeTouches(h, c, c', t);
      HoldsElsewhere(c, c', t.target, t.key, t.version, t.chunks, node, key, version, bytes);
    }
  }

  lemma OutcomeTouches(h: Hasher, c: Contents, c': Contents, t: ReplicationTask)
    requires CopyOutcome(h, c, c', t, true)
    ensures SameOutside(c, c', Places(t.target, t.key, t.version, t.chunks))
  {
  }

  lemma MarkedHealthy(m: Meta, key: string, node: string, now: Time)
    requires key in m.files && node in m.files[key].replicas
    ensures var (m', r) := m.MarkReplica(key, node, ReplicaHealthy, now);
      && r.Ok? && SameReplicaNodes(m, m')
      && m'.files[key].replicas[node].state == ReplicaHealthy
      && (forall k <- m.files, n <- m.files[k].replicas :: k != key || n != node ==>
           m'.files[k].replicas[n] == m.files[k].replicas[n])
  {
  }

  lemma HonestAfterCopy(
      h: Hasher, m: Meta, m': Meta, c: Contents, c': Contents, data: map<string, Bytes>, t: ReplicationTask)
    requires m.Valid() && CollisionFree(h) && Honest(h, m, c, data) && GoodTask(h, m, c, data, t)
      && CopyOutcome(h, c, c', t, true)
    requires SameReplicaNodes(m, m')
    requires forall k <- m.files, n <- m.files[k].replicas ::
      k != t.key || n != t.target ==> m'.files[k].replicas[n] == m.files[k].replicas[n]
    ensures Honest(h, m', c', data)
  {
    hide Holds, CopyOutcome, FileDescribes, FileOk, Partition;
    forall k | k in m'.files && !m'.files[k].deleted ensures k in data && HonestFile(h, m'.files[k], c', data[k]) {
      var (f, f') := (m.files[k], m'.files[k]);
      assert k in data && HonestFile(h, f, c, data[k]);
      SameDescription(h, data[k], f, f');
      assert f.key == k;
      forall n | n in f'.replicas && f'.replicas[n].state == ReplicaHealthy
        ensures Holds(c', n, f'.key, f'.version, data[k])
      {
        CopyKeepsHolding(h, c, c', t, data[t.key], n, k, f.version, data[k]);
      }
    }
  }

  lemma SameDescription(h: Hasher, data: Bytes, f: FileMetadata, f': FileMetadata)
    requires f' == f.(replicas := f'.replicas, updatedAt := f'.updatedAt)
    ensures FileDescribes(h, data, f) <==> FileDescribes(h, data, f')
  {
  }

  lemma GoodAfterCopy(
      h: Hasher, m: Meta, m': Meta, c: Contents, c': Contents, data: map<string, Bytes>, t: ReplicationTask,
      u: ReplicationTask)
    requires CollisionFree(h) && GoodTask(h, m, c, data, t) && GoodTask(h, m, c, data, u)
      && CopyOutcome(h, c, c', t, true)
    requires SameReplicaNodes(m, m')
    ensures GoodTask(h, m', c', data, u)
  {
    hide Holds, CopyOutcome, Partition;
    CopyKeepsHolding(h, c, c', t, data[t.key], u.source, u.key, u.version, data[u.key]);
  }

  /** One successful round keeps everything else on course. */
  lemma SteadyRound(
      h: Hasher, m: Meta, m': Meta, b: Backlog, b': Backlog, c: Contents, c': Contents, data: map<string, Bytes>,
      keys: set<string>, t: ReplicationTask)
    requires m.Valid() && CollisionFree(h) && Steady(h, m, b, c, data, keys) && CopyOutcome(h, c, c', t, true)
    requires t.id in b.tasks && b.tasks[t.id] == t && t.state == TaskPending
    requires t.id in b'.tasks && b'.tasks == b.tasks[t.id := b'.tasks[t.id]] && b'.tasks[t.id].state == TaskDone
    requires SameReplicaNodes(m, m') && m'.files[t.key].replicas[t.target].state == ReplicaHealthy
    requires forall k <- m.files, n <- m.files[k].replicas ::
      k != t.key || n != t.target ==> m'.files[k].replicas[n] == m.files[k].replicas[n]
    ensures Steady(h, m', b', c', data, keys)
  {
    hide GoodTask, CopyOutcome, Honest, Meta.Valid, SameReplicaNodes;
    assert GoodTask(h, m, c, data, t);
    HonestAfterCopy(h, m, m', c, c', data, t);
    forall id | id in b'.tasks && b'.tasks[id].state == TaskPending ensures GoodTask(h, m', c', data, b'.tasks[id]) {
      GoodAfterCopy(h, m, m', c, c', data, t, b.tasks[id]);
    }
    GoodPlace(h, m, c, data, t);
    CoveredAfter(m, m', b, b', keys, t);
  }

  lemma GoodPlace(h: Hasher, m: Meta, c: Contents, data: map<string, Bytes>, t: ReplicationTask)
    requires GoodTask(h, m, c, data, t)
    ensures t.key in m.files && t.target in m.files[t.key].replicas
  {
  }

  lemma CoveredAfter(m: Meta, m': Meta, b: Backlog, b': Backlog, keys: set<string>, t: ReplicationTask)
    requires Covered(m, b, keys) && SameReplicaNodes(m, m') && t.id in b.tasks && b.tasks[t.id] == t
    requires t.key in m.files && t.target in m.files[t.key].replicas
    requires t.id in b'.tasks && b'.tasks == b.tasks[t.id := b'.tasks[t.id]]
    requires m'.files[t.key].replicas[t.target].state == ReplicaHealthy
    requires forall k <- m.files, n <- m.files[k].replicas ::
      k != t.key || n != t.target ==> m'.files[k].replicas[n] == m.files[k].replicas[n]
    ensures Covered(m', b', keys)
  {
    forall k, n | k in keys && k in m'.files && n in m'.files[k].replicas && NeedsCopy(m'.files[k].replicas[n].state)
      ensures CopyWaits(b', k, n)
    {
      assert k != t.key || n != t.target;
      assert CopyWaits(b, k, n);
      var id :| id in b.tasks && b.tasks[id].state == TaskPending && b.tasks[id].key == k && b.tasks[id].target == n;
      assert id in b'.tasks && b'.tasks[id] == b.tasks[id];
    }
  }

  /** Replicas to which no copy waited are as they were. */
  ghost predicate OthersLeft(m: Meta, m': Meta, b: Backlog) {
    forall k <- m.files, n <- m.files[k].replicas :: !CopyWaits(b, k, n) ==>
      k in m'.files && n in m'.files[k].replicas && m'.files[k].replicas[n] == m.files[k].replicas[n]
  }

  /** What waits in b' waited in b. */
  ghost predicate StillWaiting(b: Backlog, b': Backlog) {
    forall id <- b'.tasks :: b'.tasks[id].state == TaskPending ==> id in b.tasks && b.tasks[id] == b'.tasks[id]
  }

  lemma OthersStay(
      h: Hasher, m0: Meta, m: Meta, b0: Backlog, b: Backlog, c: Contents, data: map<string, Bytes>, keys: set<string>,
      now: Time, later: Time, text: Error -> string, copied: Result<()>)
    requires b.Valid() && Steady(h, m, b, c, data, keys) && OthersLeft(m0, m, b0) && StillWaiting(b0, b)
    requires b.Pending(now) != [] && copied.Ok?
    ensures var t := b.Pending(now)[0];
      && OthersLeft(m0, m.MarkReplica(t.key, t.target, ReplicaHealthy, later).0, b0)
      && StillWaiting(b0, Worked(b, t, now, later, text, copied).0)
  {
    hide Honest, Covered, Backlog.Pending, Backlog.Valid, Worked, Meta.MarkReplica, GoodSource;
    PendingIsQueued(b, now);
    var t := b.Pending(now)[0];
    assert GoodTask(h, m, c, data, t);
    MarkedHealthy(m, t.key, t.target, later);
    WorkedTask(b, t, now, later, text, copied);
    assert CopyWaits(b0, t.key, t.target);
  }

  /** When nothing is pending any more, none of the files needs a copy. */
  lemma SteadyEnd(h: Hasher, m: Meta, b: Backlog, c: Contents, data: map<string, Bytes>, keys: set<string>, now: Time)
    requires b.Valid() && Steady(h, m, b, c, data, keys) && b.Pending(now) == []
    ensures forall k <- keys :: k in m.files && forall n <- m.files[k].replicas ::
      !NeedsCopy(m.files[k].replicas[n].state)
  {
    hide Honest, NeedsCopy, GoodSource;
    forall id | id in b.tasks ensures b.tasks[id].state != TaskPending {
      assert b.tasks[id].state == TaskPending ==> GoodTask(h, m, c, data, b.tasks[id]);
      assert b.tasks[id] !in b.Pending(now);
    }
    forall k, n | k in keys && k in m.files && n in m.files[k].replicas
      ensures !NeedsCopy(m.files[k].replicas[n].state)
    {
      assert NeedsCopy(m.files[k].replicas[n].state) ==> CopyWaits(b, k, n);
    }
  }

  class ManagedFileService {
    const coordinator: MetadataCoordinator
    const objects: ObjectStore

    ghost predicate Valid()
      reads coordinator.metadata, coordinator.tasks
    {
      coordinator.Valid()
    }

    constructor (replicaCount: nat, objects: ObjectStore)
      ensures Valid() && coordinator.metadata.State() == NO_META && coordinator.tasks.State() == NO_TASKS
      ensures this.objects == objects
    {
      coordinator := new MetadataCoordinator(replicaCount);
      this.objects := objects;
    }

    /**
     * Writes a file to its primary and publishes it, or (apart from a primary registered under the empty ID) does
     * neither. published tells whether the record was stored, which a failed Put does exactly if its commit is refused.
     */
    method Put(h: Hasher, key: string, buffers: seq<Bytes>, end: ReadEnd, now: Time)
      returns (r: Result<FileMetadata>, ghost published: bool)
      requires Valid() && buffers != [] && forall x <- buffers :: |x| <= BUFFER_SIZE
      modifies coordinator.metadata, coordinator.tasks, objects
      ensures Valid()
      ensures var (m, b, c) := old((coordinator.metadata.State(), coordinator.tasks.State(), objects.contents));
        var write := WriteOf(h, m, coordinator.replicaCount, key, Flatten(buffers));
        if end.ReadFailed? || write.Err? then
          && r == Err(if end.ReadFailed? then end.error else write.error) && !published
          && coordinator.metadata.State() == m && coordinator.tasks.State() == b && objects.contents == c
        else
          var (w, f) := (write.value, FileOf(m, write.value, now));
          var places := Places(w.primary.id, key, w.version, w.chunks);
          && SameOutside(c, objects.contents, places)
          && (r.Ok? ==>
                && r.value == f && w.primary.id != "" && published
                && coordinator.metadata.State() == m.Store(f)
                && TasksOf(f, now).Ok? && coordinator.tasks.State() == b.Enqueue(TasksOf(f, now).value)
                && f.version == m.NextVersion(key) && !f.deleted && FileDescribes(h, Flatten(buffers), f)
                && Holds(objects.contents, f.primary, key, f.version, Flatten(buffers)))
          && (r.Err? && !published ==> coordinator.metadata.State() == m && coordinator.tasks.State() == b)
          && (r.Err? && published ==>
                && r == Err(ErrPrimaryUnavailable) && w.primary.id == ""
                && coordinator.metadata.State() == m.Store(f) && coordinator.tasks.State() == b
                && WrittenThenRemoved(c, objects.contents, f, Flatten(buffers)))
          && (r.Err? && objects.deletesWork ==> objects.contents == c - places)
          && (objects.writesWork ==> published && (r.Ok? <==> w.primary.id != ""))
    {
      hide Flatten, WriteOf, PrepareIn, FileOf, Places, ObjectPlaces, SameOutside, Holds, StoredUpTo, DistinctIndices,
           Describes, FileDescribes, Partition, TasksOf, Backlog.Enqueue, Meta.Store, Meta.Valid, Backlog.Valid,
           Meta.NextVersion, WrittenThenRemoved;
      published := false;
      ghost var (m, c, data) := (coordinator.metadata.State(), objects.contents, Flatten(buffers));
      var staged := StageReader(h, buffers, end);
      if staged.Err? {
        return Err(staged.error), false;
      }
      var f := staged.value;
      StagedShape(h, f, data);
      var prepared := coordinator.PrepareWrite(key, f.size, f.checksum, f.chunks);
      WriteIsPrepared(h, m, coordinator.replicaCount, key, data);
      if prepared.Err? {
        return Err(prepared.error), false;
      }
      var w := prepared.value;
      WriteShape(h, m, coordinator.replicaCount, key, data, now);
      PartitionFits(h, data);
      var written := WriteChunks(objects, w.primary.id, key, w.version, f.data, f.chunks);
      ObjectPlacesOfChunks(w.primary.id, key, w.version, f.chunks);
      if written.Err? {
        return Err(written.error), false;
      }
      WrittenHolds(h, objects.contents, w.primary.id, key, w.version, data);
      ghost var mid := objects.contents;
      ghost var places := Places(w.primary.id, key, w.version, f.chunks);
      RemovedInside(c, mid, places);
      r := coordinator.CommitWrite(w, now);
      published := true;
      if r.Err? {
        ghost var removed := DeleteObjects(objects, w.primary.id, key, w.version, f.chunks);
        SameOutsideTwice(c, mid, objects.contents, places);
        RemovedAfterWrite(c, mid, FileOf(m, w, now), data, removed);
      }
    }

    /**
     * Reads a file from the first candidate whose bytes verify, demoting the ones before it; failures are why they did
     * not. With working reads it succeeds exactly if some healthy replica holds the file.
     */
    method Get(h: Hasher, key: string, now: Time, ghost data: Bytes)
      returns (r: Result<(Bytes, FileMetadata)>, ghost failures: seq<Error>)
      requires Valid()
      modifies coordinator.metadata
      ensures Valid()
      ensures var m := old(coordinator.metadata.State());
        var plan := ReadCandidates(m, key);
        if plan.Err? then r == Err(plan.error) && coordinator.metadata.State() == m
        else
          && |failures| <= |plan.value.replicas|
          && coordinator.metadata.State() == Demoted(m, key, plan.value.replicas, failures, now)
          && (objects.readsWork ==>
                && Tried(h, objects.contents, plan.value, failures)
                && Classified(h, objects.contents, coordinator.metadata.State(), key, plan.value, |failures|))
          && (r.Ok? ==> ServedBy(h, objects, plan.value, |failures|, r.value))
          && (r.Err? ==> r.error == ErrNoReadableReplicas && NoneHealthy(coordinator.metadata.State(), key))
      ensures r.Ok? && CollisionFree(h) && FileDescribes(h, data, r.value.1) ==> r.value.0 == data
      ensures var plan := ReadCandidates(old(coordinator.metadata.State()), key);
        objects.readsWork && CollisionFree(h) && plan.Ok? && FileDescribes(h, data, plan.value.metadata) ==>
          (r.Ok? <==> HealthyHolder(objects.contents, plan.value.metadata, data))
    {
      hide Meta.Valid, Backlog.Valid, Meta.MarkReplica, Demoted, Placement.ReadCandidates, FileDescribes, Assemble,
           Answers, HealthyHolder, CollisionFree, Tried, ServedBy, NoneHealthy, Classified;
      ghost var m := coordinator.metadata.State();
      failures := [];
      var candidates := coordinator.ReadCandidates(key);
      if candidates.Err? {
        return Err(candidates.error), [];
      }
      var plan := candidates.value;
      NothingTried(h, objects.contents, plan, m, key, now);
      for i := 0 to |plan.replicas|
        invariant Valid() && |failures| == i
        invariant coordinator.metadata.State() == Demoted(m, key, plan.replicas, failures, now)
        invariant objects.readsWork ==> Tried(h, objects.contents, plan, failures)
      {
        var staged;
        ghost var responses;
        staged, responses := StageReplica(h, objects, plan.replicas[i].nodeId, plan.metadata);
        if staged.Ok? {
          if objects.readsWork { TriedClassified(h, objects.contents, m, key, plan, failures, now); }
          ServedVerified(h, objects, plan, i, staged.value, responses, data);
          if objects.readsWork && CollisionFree(h) && FileDescribes(h, data, plan.metadata) {
            ServedHolds(h, objects.contents, m, key, plan, i, staged.value, data);
          }
          return Ok((staged.value, plan.metadata)), failures;
        }
        DemotedMore(m, key, plan.replicas, failures, staged.error, now);
        if objects.readsWork { TriedMore(h, objects.contents, plan, failures, staged.error); }
        if staged.error == ErrChecksumMismatch {
          var _ := coordinator.metadata.MarkReplica(key, plan.replicas[i].nodeId, ReplicaStale, now);
        } else {
          var _ := coordinator.metadata.MarkReplica(key, plan.replicas[i].nodeId, ReplicaMissing, now);
        }
        failures := failures + [staged.error];
      }
      NoneLeftHealthy(m, key, failures, now);
      if objects.readsWork { TriedClassified(h, objects.contents, m, key, plan, failures, now); }
      if objects.readsWork && CollisionFree(h) && FileDescribes(h, data, plan.metadata) {
        AllTriedNoneHolds(h, objects.contents, m, key, plan, failures, data);
      }
      r := Err(ErrNoReadableReplicas);
    }

    /** Tombstones a file, then removes its objects from every replica, as far as deletes work. */
    method Delete(key: string, now: Time) returns (r: Result<FileMetadata>)
      requires Valid()
      modifies coordinator.metadata, objects
      ensures Valid()
      ensures var (m, c) := old((coordinator.metadata.State(), objects.contents));
        && (coordinator.metadata.State(), r) == m.Tombstone(key, now)
        && (r.Err? ==> r.error == ErrMetadataNotFound && objects.contents == c)
        && (r.Ok? ==>
              var f := m.files[key];
              && SameContent(f, r.value) && r.value.version == f.version + 1 && r.value.deleted
              && r.value.replicas.Keys == f.replicas.Keys
              && (forall n <- r.value.replicas :: r.value.replicas[n].state == ReplicaDeleted)
              && Placement.ReadCandidates(coordinator.metadata.State(), key) == Err(ErrFileDeleted)
              && SameOutside(c, objects.contents, FilePlaces(f, f.replicas.Keys))
              && (objects.deletesWork ==> objects.contents == c - FilePlaces(f, f.replicas.Keys)))
    {
      hide Meta.Valid, FilePlaces, ObjectPlaces, SameOutside, HealthyReplicas, Prioritized;
      var found := coordinator.metadata.GetFile(key);
      if found.None? {
        return Err(ErrMetadataNotFound);
      }
      var f := found.value;
      FileUnderKey(coordinator.metadata.State(), key);
      TombstoneExact(coordinator.metadata.State(), key, now);
      r := coordinator.DeleteFile(key, now);
      ghost var (after, c, all) := (coordinator.metadata.State(), objects.contents, f.replicas.Keys);
      var todo := f.replicas.Keys;
      NoPlaces(c, f, all);
      while todo != {}
        invariant todo <= all
        invariant Valid() && coordinator.metadata.State() == after
        invariant SameOutside(c, objects.contents, FilePlaces(f, all))
        invariant objects.deletesWork ==> objects.contents == c - FilePlaces(f, all - todo)
      {
        var n :| n in todo;
        ghost var before := objects.contents;
        ghost var removed := DeleteObjects(objects, n, key, f.version, f.chunks);
        MorePlaces(c, before, objects.contents, f, all, todo, n);
        todo := todo - {n};
      }
      assert all - todo == all;
    }

    /**
     * Runs the first pending task: started, copied, then done or failed together with the state of its target.
     * copied is how the copy itself went.
     */
    method WorkOnce(h: Hasher, text: Error -> string, now: Time, later: Time, ghost data: Bytes)
      returns (r: Result<ReplicationTask>, ghost copied: Result<()>)
      requires Valid()
      modifies coordinator.metadata, coordinator.tasks, objects
      ensures Valid()
      ensures var (m, b, c) := old((coordinator.metadata.State(), coordinator.tasks.State(), objects.contents));
        if b.Pending(now) == [] then
          && r == Err(ErrNoPendingTasks)
          && coordinator.metadata.State() == m && coordinator.tasks.State() == b && objects.contents == c
        else
          var t := b.Pending(now)[0];
          var (b2, ended) := Worked(b, t, now, later, text, copied);
          var marked := m.MarkReplica(t.key, t.target, if copied.Ok? then ReplicaHealthy else ReplicaMissing, later);
          && (forall u <- b.tasks.Values ::
                u.state == TaskPending && ReadyToRun(u, now) ==> u == t || ComesFirst(t, u))
          && coordinator.tasks.State() == b2 && ended.Ok?
          && coordinator.metadata.State() == marked.0
          && r == (if marked.1.Err? then Err(marked.1.error) else if copied.Err? then Err(copied.error) else ended)
          && r != Err(ErrNoPendingTasks)
          && (t.chunks != [] ==> CopyOutcome(h, c, objects.contents, t, copied.Ok?))
          && (t.chunks == [] ==> SameOutside(c, objects.contents, {PlaceOf(t.target, t.key, t.version)}))
          && (copied.Ok? && CollisionFree(h) && t.chunks == Partition(h, data) ==>
                Holds(objects.contents, t.target, t.key, t.version, data))
          && (objects.readsWork && objects.writesWork && GoodSource(h, c, t, data) ==> copied.Ok?)
    {
      hide Backlog.Pending, Meta.Valid, Meta.MarkReplica, CopyOutcome, SameOutside, PlaceOf, Partition, Holds,
           GoodSource, CollisionFree, Failed, Finished, Backlog.Valid;
      MarkErrors(coordinator.metadata.State());
      copied := Ok(());
      var pending := coordinator.tasks.Pending(now);
      if |pending| == 0 {
        return Err(ErrNoPendingTasks), copied;
      }
      PendingIsQueued(coordinator.tasks.State(), now);
      EarliestFirst(coordinator.tasks.State(), now);
      ghost var t := pending[0];
      var started := coordinator.StartReplication(pending[0].id, now);
      var task := started.value;
      EndedTask(t, now, later, "");
      CopyOfStarted(h, objects.contents, t, task, data);
      ghost var before := objects.contents;
      var done;
      ghost var stop;
      done, stop := Replicate(h, objects, task, data);
      StartedCopyOutcome(h, before, objects.contents, t, task, done.Ok?, data);
      copied := done;
      if done.Err? {
        EndedTask(t, now, later, text(done.error));
        var failed := coordinator.FailReplication(task.id, text(done.error), later);
        if failed.Err? {
          return Err(failed.error), copied;
        }
        return Err(done.error), copied;
      }
      r := coordinator.FinishReplication(task.id, later);
    }

    /**
     * The manager's drain loop: works until something fails or nothing is pending; it always comes to an end. If the
     * nodes work, healthy replicas are honest and the waiting copies are good, it ends with every wanted copy made.
     */
    method Drain(h: Hasher, text: Error -> string, ghost data: map<string, Bytes>, ghost keys: set<string>)
      returns (copies: nat, stopped: Error, at: Time)
      requires Valid()
      modifies coordinator.metadata, coordinator.tasks, objects
      ensures Valid()
      ensures copies + |Waiting(coordinator.tasks.State())| <= |Waiting(old(coordinator.tasks.State()))|
      ensures OnlyWaitingMoved(old(coordinator.tasks.State()), coordinator.tasks.State())
      ensures stopped == ErrNoPendingTasks ==> coordinator.tasks.State().Pending(at) == []
      ensures objects.readsWork && objects.writesWork && CollisionFree(h)
              && old(Steady(h, coordinator.metadata.State(), coordinator.tasks.State(), objects.contents, data,
                   keys)) ==>
        && stopped == ErrNoPendingTasks
        && Steady(h, coordinator.metadata.State(), coordinator.tasks.State(), objects.contents, data, keys)
        && SameReplicaNodes(old(coordinator.metadata.State()), coordinator.metadata.State())
        && OthersLeft(old(coordinator.metadata.State()), coordinator.metadata.State(), old(coordinator.tasks.State()))
    {
      hide Backlog.Pending, Meta.Valid, Meta.MarkReplica, CopyOutcome, SameOutside, PlaceOf, Partition, Holds,
           GoodSource, CollisionFree, Worked, Backlog.Valid, Waiting, OnlyWaitingMoved, Steady, SameReplicaNodes,
           OthersLeft, StillWaiting;
      copies := 0;
      ghost var (m0, b0) := (coordinator.metadata.State(), coordinator.tasks.State());
      ghost var good := objects.readsWork && objects.writesWork && CollisionFree(h)
        && Steady(h, m0, b0, objects.contents, data, keys);
      NothingMoved(m0, b0);
      while true
        invariant Valid()
        invariant copies + |Waiting(coordinator.tasks.State())| <= |Waiting(b0)|
        invariant OnlyWaitingMoved(b0, coordinator.tasks.State())
        invariant good ==>
          && Steady(h, coordinator.metadata.State(), coordinator.tasks.State(), objects.contents, data, keys)
          && SameReplicaNodes(m0, coordinator.metadata.State())
          && OthersLeft(m0, coordinator.metadata.State(), b0) && StillWaiting(b0, coordinator.tasks.State())
        decreases |Waiting(coordinator.tasks.State())|
      {
        var now: Time, later: Time := *, *;
        ghost var (m, b, c) := (coordinator.metadata.State(), coordinator.tasks.State(), objects.contents);
        ghost var bytes := if b.Pending(now) != [] && b.Pending(now)[0].key in data then data[b.Pending(now)[0].key]
          else [];
        if good && b.Pending(now) != [] { GoodHead(h, m, b, c, data, keys, now, later); }
        var r;
        ghost var copied;
        r, copied := WorkOnce(h, text, now, later, bytes);
        if b.Pending(now) != [] { OneLessWaiting(b0, b, now, later, text, copied); }
        if r.Err? {
          return copies, r.error, now;
        }
        if good {
          SteadyWork(h, m0, m, b, c, objects.contents, data, keys, now, later, text, copied);
          OthersStay(h, m0, m, b0, b, c, data, keys, now, later, text, copied);
        }
        copies := copies + 1;
      }
    }
  }

  lemma NothingMoved(m: Meta, b: Backlog)
    ensures OnlyWaitingMoved(b, b) && SameReplicaNodes(m, m) && OthersLeft(m, m, b) && StillWaiting(b, b)
  {
  }

  /** With everything on course, the head of the queue is a copy that will succeed. */
  lemma GoodHead(
      h: Hasher, m: Meta, b: Backlog, c: Contents, data: map<string, Bytes>, keys: set<string>, now: Time, later: Time)
    requires b.Valid() && Steady(h, m, b, c, data, keys) && b.Pending(now) != []
    ensures var t := b.Pending(now)[0];
      && t.key in data && t.chunks == Partition(h, data[t.key]) && t.chunks != [] && GoodSource(h, c, t, data[t.key])
      && m.MarkReplica(t.key, t.target, ReplicaHealthy, later).1.Ok?
  {
    hide Honest, Holds, Partition, Backlog.Pending, Backlog.Valid;
    PendingIsQueued(b, now);
    var t := b.Pending(now)[0];
    assert GoodTask(h, m, c, data, t);
    MarkedHealthy(m, t.key, t.target, later);
  }

  lemma SteadyWork(
      h: Hasher, m0: Meta, m: Meta, b: Backlog, c: Contents, c': Contents, data: map<string, Bytes>, keys: set<string>,
      now: Time, later: Time, text: Error -> string, copied: Result<()>)
    requires m.Valid() && b.Valid() && CollisionFree(h) && Steady(h, m, b, c, data, keys) && SameReplicaNodes(m0, m)
    requires b.Pending(now) != [] && copied.Ok? && CopyOutcome(h, c, c', b.Pending(now)[0], true)
    ensures var (t, m') := (b.Pending(now)[0],
      m.MarkReplica(b.Pending(now)[0].key, b.Pending(now)[0].target, ReplicaHealthy, later).0);
      && Steady(h, m', Worked(b, t, now, later, text, copied).0, c', data, keys)
      && SameReplicaNodes(m0, m')
  {
    hide Honest, CopyOutcome, Backlog.Pending, Backlog.Valid, Worked, Meta.MarkReplica, SameReplicaNodes, Covered,
         Meta.Valid, GoodSource;
    PendingIsQueued(b, now);
    var t := b.Pending(now)[0];
    assert GoodTask(h, m, c, data, t);
    MarkedHealthy(m, t.key, t.target, later);
    WorkedTask(b, t, now, later, text, copied);
    var m' := m.MarkReplica(t.key, t.target, ReplicaHealthy, later).0;
    SteadyRound(h, m, m', b, Worked(b, t, now, later, text, copied).0, c, c', data, keys, t);
    SameReplicaNodesTwice(m0, m, m');
  }

  lemma StagedShape(h: Hasher, f: StagedFile, data: Bytes)
    requires f.data == data && Describes(h, f.data, f.size, f.checksum, f.chunks)
    ensures f.size == |data| && f.checksum == h(data) && f.chunks == Partition(h, data) && f.chunks != []
  {
  }

  lemma WriteIsPrepared(h: Hasher, m: Meta, replicaCount: int, key: string, data: Bytes)
    requires replicaCount >= 1
    ensures WriteOf(h, m, replicaCount, key, data) ==
      PrepareIn(m, replicaCount, key, |data|, h(data), Partition(h, data))
  {
  }
}

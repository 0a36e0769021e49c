/** The coordinator: metadata, placement and the task queue behind one set of operations. */
module Coordinator {
  import opened Types
  import opened Ordering
  import opened Naming
  import opened Metadata
  import opened Queue
  import opened Placement
  import opened Repair

  const DEFAULT_REPLICA_COUNT := 3

  /** Planning on the listing of healthy nodes: filtering and sorting change nothing. */
  lemma HealthyNodesForPlan(m: Meta)
    requires m.Valid()
    ensures SortSlice(NodeLess, Filter(HealthyNode, m.HealthyNodes())) == m.HealthyNodes()
  {
    hide SortSlice, Filter, SortedSeq;
    var nodes := m.HealthyNodes();
    NodeOrder(m);
    HealthyNodesDistinct(m);
    KeptTwice(m.nodes, HealthyNode);
    FilterSortedSeq(NodeLess, HealthyNode, Kept(m.nodes, HealthyNode));
    SortSliceIsSortedSeq(NodeLess, nodes, Kept(m.nodes, HealthyNode));
  }

  lemma KeptTwice<T(!new)>(m: map<string, T>, keep: T -> bool)
    ensures (set x | x in Kept(m, keep) && keep(x)) == Kept(m, keep)
  {
  }

  /** A write prepared in state m. */
  ghost function PrepareIn(
      m: Meta, replicaCount: int, key: string, size: nat, checksum: string, chunks: seq<ChunkMetadata>)
    : Result<PreparedWrite>
    requires replicaCount >= 1
  {
    var plan := PlanOf(m.HealthyNodes(), replicaCount);
    if plan.Err? then Err(plan.error)
    else Ok(PreparedWrite(key, m.NextVersion(key), size, checksum, chunks, plan.value.primary, plan.value.replicas))
  }

  class MetadataCoordinator {
    const metadata: MetadataStore
    const tasks: MemoryQueue
    const replicaCount: int

    ghost predicate Valid()
      reads metadata, tasks
    {
      replicaCount >= 1 && metadata.State().Valid() && tasks.State().Valid()
    }

    constructor (replicaCount: nat)
      ensures Valid() && metadata.State() == NO_META && tasks.State() == NO_TASKS && fresh(metadata) && fresh(tasks)
      ensures this.replicaCount == if replicaCount == 0 then 3 else replicaCount
    {
      metadata := new MetadataStore();
      tasks := new MemoryQueue();
      this.replicaCount := if replicaCount == 0 then DEFAULT_REPLICA_COUNT else replicaCount;
    }

    method RegisterNode(id: string, addr: string, now: Time) returns (node: NodeMetadata)
      requires Valid()
      modifies metadata
      ensures Valid() && metadata.State() == old(metadata.State()).UpsertNode(id, addr, now)
      ensures node == metadata.State().nodes[id]
    {
      node := metadata.UpsertNode(id, addr, now);
    }

    method PrepareWrite(
        key: string, size: nat, checksum: string, chunks: seq<ChunkMetadata>)
      returns (r: Result<PreparedWrite>)
      requires Valid()
      ensures r == PrepareIn(metadata.State(), replicaCount, key, size, checksum, chunks)
    {
      hide PlanOf, SortSlice, Filter;
      var nodes := metadata.HealthyNodes();
      HealthyNodesForPlan(metadata.State());
      var plan := Plan(nodes, replicaCount);
      if plan.Err? {
        return Err(plan.error);
      }
      var version := metadata.NextVersion(key);
      r := Ok(PreparedWrite(key, version, size, checksum, chunks, plan.value.primary, plan.value.replicas));
    }

    /** Publishes a prepared write and queues its copies. */
    method CommitWrite(prep: PreparedWrite, now: Time) returns (r: Result<FileMetadata>)
      requires Valid()
      modifies metadata, tasks
      ensures Valid()
      ensures var f := FileOf(old(metadata.State()), prep, now);
        && metadata.State() == old(metadata.State()).Store(f)
        && (TasksOf(f, now).Ok? ==> r == Ok(f) && tasks.State() == old(tasks.State()).Enqueue(TasksOf(f, now).value))
        && (TasksOf(f, now).Err? ==> r == Err(TasksOf(f, now).error) && tasks.State() == old(tasks.State()))
    {
      hide TasksOf;
      var replicaIds: seq<string> := [];
      for i := 0 to |prep.replicas|
        invariant replicaIds == NodeIds(prep.replicas)[..i]
      {
        replicaIds := replicaIds + [prep.replicas[i].id];
      }
      assert replicaIds == NodeIds(prep.replicas);
      var f := metadata.BeginFileVersion(prep.key, prep.size, prep.checksum, prep.chunks, prep.primary.id, replicaIds,
        now);
      assert f == FileOf(old(metadata.State()), prep, now) && metadata.State().files[f.key] == f;
      var ts := TasksForFile(f, now);
      if ts.Err? {
        return Err(ts.error);
      }
      tasks.Enqueue(ts.value);
      r := Ok(f);
    }

    method StartReplication(id: string, now: Time) returns (r: Result<ReplicationTask>)
      requires Valid()
      modifies tasks
      ensures Valid() && (tasks.State(), r) == old(tasks.State()).MarkRunning(id, now)
    {
      r := tasks.MarkRunning(id, now);
    }

    /** Marks the task done, then its target healthy, whatever the version of the file is by now. */
    method FinishReplication(id: string, now: Time) returns (r: Result<ReplicationTask>)
      requires Valid()
      modifies metadata, tasks
      ensures Valid() && tasks.State() == old(tasks.State()).MarkDone(id, now).0
      ensures var done := old(tasks.State()).MarkDone(id, now).1;
        && (done.Err? ==> r == done && metadata.State() == old(metadata.State()))
        && (done.Ok? ==>
              var marked := old(metadata.State()).MarkReplica(done.value.key, done.value.target, ReplicaHealthy, now);
              && metadata.State() == marked.0
              && r == if marked.1.Ok? then done else Err(marked.1.error))
    {
      var done := tasks.MarkDone(id, now);
      if done.Err? {
        return done;
      }
      var marked := metadata.MarkReplica(done.value.key, done.value.target, ReplicaHealthy, now);
      if marked.Err? {
        return Err(marked.error);
      }
      r := done;
    }

    method FailReplication(id: string, cause: string, now: Time) returns (r: Result<ReplicationTask>)
      requires Valid()
      modifies metadata, tasks
      ensures Valid() && tasks.State() == old(tasks.State()).MarkFailed(id, cause, now).0
      ensures var failed := old(tasks.State()).MarkFailed(id, cause, now).1;
        && (failed.Err? ==> r == failed && metadata.State() == old(metadata.State()))
        && (failed.Ok? ==>
              var marked := old(metadata.State()).MarkReplica(failed.value.key, failed.value.target, ReplicaMissing,
                now);
              && metadata.State() == marked.0
              && r == if marked.1.Ok? then failed else Err(marked.1.error))
    {
      var failed := tasks.MarkFailed(id, cause, now);
      if failed.Err? {
        return failed;
      }
      var marked := metadata.MarkReplica(failed.value.key, failed.value.target, ReplicaMissing, now);
      if marked.Err? {
        return Err(marked.error);
      }
      r := failed;
    }

    method ReadCandidates(key: string) returns (r: Result<ReadPlan>)
      requires Valid()
      ensures r == Placement.ReadCandidates(metadata.State(), key)
    {
      var found := metadata.GetFile(key);
      if found.None? {
        return Err(ErrMetadataNotFound);
      }
      var f := found.value;
      if f.deleted {
        return Err(ErrFileDeleted);
      }
      var healthy := HealthyReplicasOf(f);
      var replicas := PrioritizePrimary(f, healthy);
      if |replicas| == 0 {
        return Err(ErrNoReadableReplicas);
      }
      r := Ok(ReadPlan(f, replicas));
    }

    method DeleteFile(key: string, now: Time) returns (r: Result<FileMetadata>)
      requires Valid()
      modifies metadata
      ensures Valid() && (metadata.State(), r) == old(metadata.State()).Tombstone(key, now)
    {
      r := metadata.Tombstone(key, now);
    }

    method RepairMissingReplicas(f: FileMetadata, source: string, nodes: seq<NodeMetadata>, now: Time)
      returns (ts: seq<ReplicationTask>)
      requires Valid()
      modifies metadata
      ensures Valid()
      ensures f.key !in old(metadata.State()).files ==> metadata.State() == old(metadata.State()) && ts == []
      ensures f.key in old(metadata.State()).files ==>
        var ids := NewTargets(f, nodes, Room(f, replicaCount));
        && metadata.State() == PendingIn(old(metadata.State()), f.key, ids, now)
        && ts == TasksTo(f, source, ids, now)
    {
      hide NewTargets, CopyTask, WithPending, PendingIn, Meta.AddReplica, TasksTo, FileOk, Meta.Valid, TakenSoFar;
      ts := [];
      ghost var m0, room := metadata.State(), Room(f, replicaCount);
      ghost var taken: seq<string> := [];
      ghost var known := f.key in m0.files;
      if known { PendingNone(m0, f.key, now); }
      AddUnknown(m0, f.key, now);
      TasksToNone(f, source, now);
      NewTargetsEnd(f, nodes, room);
      if |f.replicas| >= replicaCount {
        return;
      }
      TakenNone(f, nodes, room);
      var i := 0;
      while i < |nodes|
        invariant 0 <= i <= |nodes| && Valid()
        invariant known ==> TakenSoFar(f, nodes, room, i, taken)
        invariant known ==> metadata.State() == PendingIn(m0, f.key, taken, now)
        invariant !known ==> metadata.State() == m0 && taken == []
        invariant ts == TasksTo(f, source, taken, now) && |ts| == |taken|
      {
        if |f.replicas| + |ts| >= replicaCount {
          break;
        }
        if known { TakenOne(f, nodes, room, i, taken); }
        if nodes[i].id in f.replicas {
          i := i + 1;
          continue;
        }
        if known { PendingMore(m0, f.key, taken, nodes[i].id, now); }
        var added := metadata.AddReplica(f.key, nodes[i].id, ReplicaPending, now);
        if added.Err? {
          i := i + 1;
          continue;
        }
        TasksToMore(f, source, taken, nodes[i].id, now);
        ts := ts + [CopyTask(f, source, nodes[i].id, now)];
        taken := taken + [nodes[i].id];
        i := i + 1;
      }
      if known { TakenAll(f, nodes, room, i, taken); }
    }

    /** Copies wanted by the replicas f already has, one each; the replicas are visited in no particular order. */
    method RepairExistingReplicas(f: FileMetadata, source: string, now: Time) returns (ts: seq<ReplicationTask>)
      requires FileOk(f)
      ensures CopiesTo(f, source, ExistingTargets(f, source), now, ts)
    {
      hide CopiesTo, CopyTask;
      ts := [];
      var todo := f.replicas.Keys;
      ghost var wanted := ExistingTargets(f, source);
      NoCopies(f, source, now);
      assert wanted - todo == {};
      while todo != {}
        invariant todo <= f.replicas.Keys
        invariant CopiesTo(f, source, wanted - todo, now, ts)
      {
        var n :| n in todo;
        ghost var before := wanted - todo;
        todo := todo - {n};
        if n == source || f.replicas[n].state == ReplicaHealthy || f.replicas[n].state == ReplicaDeleted {
          assert wanted - todo == before;
          continue;
        }
        OneMoreCopy(f, source, before, now, ts, n);
        assert wanted - todo == before + {n};
        ts := ts + [CopyTask(f, source, n, now)];
      }
      assert wanted - todo == wanted;
    }

    /** Scans the files and asks for the copies they lack. */
    method PlanRepair(now: Time) returns (ts: seq<ReplicationTask>)
      requires Valid()
      modifies metadata, tasks
      ensures Valid()
      ensures old(metadata.State()).HealthyNodes() == [] ==>
        ts == [] && metadata.State() == old(metadata.State()) && tasks.State() == old(tasks.State())
      ensures old(metadata.State()).HealthyNodes() != [] ==>
        var m := old(metadata.State());
        && metadata.State() == Repaired(m, m.files.Keys, replicaCount, now)
        && RepairTasks(m, m.files.Keys, replicaCount, now, ts)
        && tasks.State() == old(tasks.State()).Enqueue(ts)
    {
      hide Meta.HealthyNodes, Meta.ListFiles, Repaired, RepairTasks, Backlog.Enqueue, IsRepairTask, CopyTask,
           Repairable, NewTargets, ExistingTargets, PendingIn, TasksTo, SourceOf, CopiesTo;
      ghost var m := metadata.State();
      var nodes := metadata.HealthyNodes();
      ts := [];
      if |nodes| == 0 {
        return;
      }
      var files := metadata.ListFiles();
      ListedFiles(m);
      NothingRepaired(m, replicaCount, now);
      for i := 0 to |files|
        invariant Valid() && tasks.State() == old(tasks.State())
        invariant metadata.State() == Repaired(m, KeysUpTo(files, i), replicaCount, now)
        invariant RepairTasks(m, KeysUpTo(files, i), replicaCount, now, ts)
      {
        var f := files[i];
        RepairOne(m, files, i, replicaCount, now);
        RepairableFile(f);
        if !Repairable(f) { NoTasksOfFile(m, files, i, replicaCount, now, ts); }
        if f.deleted {
          continue;
        }
        var source := FirstHealthyReplica(f);
        if source == "" {
          continue;
        }
        var existing := RepairExistingReplicas(f, source, now);
        var missing := RepairMissingReplicas(f, source, nodes, now);
        RepairTasksOfFile(m, files, i, replicaCount, now, ts, existing, missing);
        ts := ts + existing + missing;
      }
      tasks.Enqueue(ts);
    }
  }

  method FirstHealthyReplica(f: FileMetadata) returns (source: string)
    requires FileOk(f)
    ensures source == SourceOf(f)
  {
    var replicas := HealthyReplicasOf(f);
    if |replicas| == 0 {
      return "";
    }
    source := replicas[0].nodeId;
  }

  ghost function PendingIn(m: Meta, key: string, ids: seq<string>, now: Time): Meta
    requires key in m.files
  {
    m.(files := m.files[key := WithPending(m.files[key], ids, now)])
  }

  function TasksTo(f: FileMetadata, source: string, ids: seq<string>, now: Time): seq<ReplicationTask> {
    seq(|ids|, i requires 0 <= i < |ids| => CopyTask(f, source, ids[i], now))
  }

  lemma TasksToNone(f: FileMetadata, source: string, now: Time)
    ensures TasksTo(f, source, [], now) == []
  {
  }

  lemma TasksToMore(f: FileMetadata, source: string, ids: seq<string>, id: string, now: Time)
    ensures TasksTo(f, source, ids + [id], now) == TasksTo(f, source, ids, now) + [CopyTask(f, source, id, now)]
  {
    hide CopyTask;
  }

  lemma PendingNone(m: Meta, key: string, now: Time)
    requires key in m.files
    ensures PendingIn(m, key, [], now) == m
  {
    assert m.files[key := m.files[key]] == m.files;
  }

  lemma AddUnknown(m: Meta, key: string, now: Time)
    ensures key !in m.files ==>
      forall id :: m.AddReplica(key, id, ReplicaPending, now) == (m, Err(ErrMetadataNotFound))
  {
  }

  lemma MarkedPending(f: FileMetadata, ids: seq<string>, id: string, now: Time)
    ensures Marked(WithPending(f, ids, now), id, ReplicaPending, now) == WithPending(f, ids + [id], now)
  {
    hide PendingReplicas;
    var r := ReplicaMetadata(id, ReplicaPending, now);
    PendingSnoc(ids, id, now);
    UpdatedSum(f.replicas, PendingReplicas(ids, now), id, r);
    if ids == [] { NoPendingReplicas(f.replicas, now); }
  }

  lemma PendingSnoc(ids: seq<string>, id: string, now: Time)
    ensures PendingReplicas(ids + [id], now) ==
            PendingReplicas(ids, now)[id := ReplicaMetadata(id, ReplicaPending, now)]
  {
  }

  lemma NoPendingReplicas(replicas: map<string, ReplicaMetadata>, now: Time)
    ensures replicas + PendingReplicas([], now) == replicas
  {
  }

  lemma UpdatedSum<K, V>(a: map<K, V>, b: map<K, V>, k: K, v: V)
    ensures (a + b)[k := v] == a + b[k := v]
  {
  }

  lemma PendingMore(m: Meta, key: string, ids: seq<string>, id: string, now: Time)
    requires key in m.files
    ensures PendingIn(m, key, ids, now).AddReplica(key, id, ReplicaPending, now).0 == PendingIn(m, key, ids + [id], now)
    ensures PendingIn(m, key, ids, now).AddReplica(key, id, ReplicaPending, now).1.Ok?
  {
    hide WithPending, Marked;
    var f := m.files[key];
    MarkedPending(f, ids, id, now);
    assert m.files[key := WithPending(f, ids, now)][key := WithPending(f, ids + [id], now)] ==
           m.files[key := WithPending(f, ids + [id], now)];
  }

  lemma NewTargetsEnd(f: FileMetadata, nodes: seq<NodeMetadata>, room: int)
    ensures nodes == [] || room <= 0 ==> NewTargets(f, nodes, room) == []
  {
  }

  /** The nodes taken so far are the first targets, and the others come from the nodes from i on. */
  ghost predicate TakenSoFar(f: FileMetadata, nodes: seq<NodeMetadata>, room: int, i: nat, taken: seq<string>)
    requires i <= |nodes|
  {
    NewTargets(f, nodes, room) == taken + NewTargets(f, nodes[i..], room - |taken|)
  }

  lemma TakenNone(f: FileMetadata, nodes: seq<NodeMetadata>, room: int)
    ensures TakenSoFar(f, nodes, room, 0, [])
  {
    assert nodes[0..] == nodes;
  }

  lemma TakenOne(f: FileMetadata, nodes: seq<NodeMetadata>, room: int, i: nat, taken: seq<string>)
    requires i < |nodes| && room - |taken| > 0 && TakenSoFar(f, nodes, room, i, taken)
    ensures nodes[i].id in f.replicas ==> TakenSoFar(f, nodes, room, i + 1, taken)
    ensures nodes[i].id !in f.replicas ==> TakenSoFar(f, nodes, room, i + 1, taken + [nodes[i].id])
  {
    hide NewTargets;
    NewTargetsOne(f, nodes, i, room - |taken|);
  }

  lemma TakenAll(f: FileMetadata, nodes: seq<NodeMetadata>, room: int, i: nat, taken: seq<string>)
    requires i <= |nodes| && TakenSoFar(f, nodes, room, i, taken) && (i == |nodes| || room - |taken| <= 0)
    ensures NewTargets(f, nodes, room) == taken
  {
    hide NewTargets;
    NewTargetsEnd(f, nodes[i..], room - |taken|);
  }

  lemma NewTargetsOne(f: FileMetadata, nodes: seq<NodeMetadata>, i: nat, room: int)
    requires i < |nodes| && room > 0
    ensures NewTargets(f, nodes[i..], room) ==
      if nodes[i].id in f.replicas then NewTargets(f, nodes[i + 1..], room)
      else [nodes[i].id] + NewTargets(f, nodes[i + 1..], room - 1)
  {
    assert nodes[i..][1..] == nodes[i + 1..];
  }

  /** ts holds exactly one copy to each of the targets. */
  ghost predicate CopiesTo(f: FileMetadata, source: string, targets: set<string>, now: Time, ts: seq<ReplicationTask>) {
    && |ts| == |targets|
    && (forall i, j :: 0 <= i < j < |ts| ==> ts[i].target != ts[j].target)
    && (forall t :: t in ts <==> t.target in targets && t == CopyTask(f, source, t.target, now))
  }

  lemma NoCopies(f: FileMetadata, source: string, now: Time)
    ensures CopiesTo(f, source, {}, now, [])
  {
  }

  lemma OneMoreCopy(
      f: FileMetadata, source: string, targets: set<string>, now: Time, ts: seq<ReplicationTask>, n: string)
    requires CopiesTo(f, source, targets, now, ts) && n !in targets
    ensures CopiesTo(f, source, targets + {n}, now, ts + [CopyTask(f, source, n, now)])
  {
    hide TaskId;
    var t := CopyTask(f, source, n, now);
    assert t.target == n && |targets + {n}| == |targets| + 1;
    forall i | 0 <= i < |ts| ensures ts[i].target != n { assert ts[i] in ts; }
  }

  // ----- The loop over the files -----

  ghost function KeysUpTo(files: seq<FileMetadata>, n: nat): set<string>
    requires n <= |files|
  {
    set i | 0 <= i < n :: files[i].key
  }

  lemma NothingRepaired(m: Meta, replicaCount: int, now: Time)
    ensures Repaired(m, {}, replicaCount, now) == m && RepairTasks(m, {}, replicaCount, now, [])
  {
    assert Repaired(m, {}, replicaCount, now).files == m.files;
  }

  /** The listing visits every file once. */
  lemma ListedFiles(m: Meta)
    requires m.Valid()
    ensures var files := m.ListFiles();
      && (forall i :: 0 <= i < |files| ==> files[i].key in m.files && m.files[files[i].key] == files[i])
      && (forall i, j :: 0 <= i < j < |files| ==> files[i].key != files[j].key)
      && KeysUpTo(files, |files|) == m.files.Keys && KeysUpTo(files, 0) == {}
  {
    hide StringLess, SortedSeq, TotalOn, FileOk;
    var files := m.ListFiles();
    FileOrder(m);
    SortedSeqSorted(FileLess, Kept(m.files, AnyFile));
    forall i | 0 <= i < |files| ensures files[i].key in m.files && m.files[files[i].key] == files[i] {
      assert files[i] in Elements(files);
    }
    forall i, j | 0 <= i < j < |files| ensures files[i].key != files[j].key {
      assert FileLess(files[i], files[j]);
      StringLessIrreflexive(files[i].key);
    }
    forall k | k in m.files ensures k in KeysUpTo(files, |files|) {
      assert m.files[k] in Elements(files);
      var i :| 0 <= i < |files| && files[i] == m.files[k];
    }
  }

  /** Going over one more file extends its own record if it can be repaired, and nothing else. */
  lemma RepairKey(m: Meta, keys: set<string>, key: string, replicaCount: int, now: Time)
    requires key in m.files && key !in keys
    ensures var (f, before) := (m.files[key], Repaired(m, keys, replicaCount, now));
      var after := Repaired(m, keys + {key}, replicaCount, now);
      && key in before.files
      && (!Repairable(f) ==> after == before)
      && (Repairable(f) ==>
            after == PendingIn(before, key, NewTargets(f, m.HealthyNodes(), Room(f, replicaCount)), now))
  {
    hide Meta.HealthyNodes, NewTargets, WithPending, Repairable;
    var f := m.files[key];
    var (before, after) := (Repaired(m, keys, replicaCount, now), Repaired(m, keys + {key}, replicaCount, now));
    if Repairable(f) {
      assert after.files == before.files[key := RepairedFile(f, m.HealthyNodes(), replicaCount, now)];
    } else {
      assert after.files == before.files;
    }
  }

  lemma RepairOne(m: Meta, files: seq<FileMetadata>, i: nat, replicaCount: int, now: Time)
    requires m.Valid() && files == m.ListFiles() && i < |files|
    ensures var (f, before) := (files[i], Repaired(m, KeysUpTo(files, i), replicaCount, now));
      var after := Repaired(m, KeysUpTo(files, i + 1), replicaCount, now);
      && FileOk(f) && f.key in before.files
      && (!Repairable(f) ==> after == before)
      && (Repairable(f) ==>
            after == PendingIn(before, f.key, NewTargets(f, m.HealthyNodes(), Room(f, replicaCount)), now))
  {
    hide Meta.HealthyNodes, Meta.ListFiles, NewTargets, Repairable, Repaired, PendingIn, FileOk;
    ListedFiles(m);
    assert KeysUpTo(files, i + 1) == KeysUpTo(files, i) + {files[i].key};
    assert files[i].key !in KeysUpTo(files, i);
    RepairKey(m, KeysUpTo(files, i), files[i].key, replicaCount, now);
  }

  /** A file that cannot be repaired asks for no copies. */
  lemma NoTasksOfFile(m: Meta, files: seq<FileMetadata>, i: nat, replicaCount: int, now: Time, ts: seq<ReplicationTask>)
    requires m.Valid() && files == m.ListFiles() && i < |files|
      && RepairTasks(m, KeysUpTo(files, i), replicaCount, now, ts)
    requires !Repairable(files[i])
    ensures RepairTasks(m, KeysUpTo(files, i + 1), replicaCount, now, ts)
  {
    hide Meta.HealthyNodes, Meta.ListFiles, IsRepairTask, SourceOf, Repairable;
    ListedFiles(m);
    assert KeysUpTo(files, i + 1) == KeysUpTo(files, i) + {files[i].key};
  }

  lemma RepairableFile(f: FileMetadata)
    ensures Repairable(f) <==> !f.deleted && SourceOf(f) != ""
  {
  }

  lemma RepairTasksOfFile(
      m: Meta, files: seq<FileMetadata>, i: nat, replicaCount: int, now: Time, ts: seq<ReplicationTask>,
      existing: seq<ReplicationTask>, missing: seq<ReplicationTask>)
    requires m.Valid() && files == m.ListFiles() && i < |files|
      && RepairTasks(m, KeysUpTo(files, i), replicaCount, now, ts)
    requires Repairable(files[i])
    requires var f := files[i];
      && CopiesTo(f, SourceOf(f), ExistingTargets(f, SourceOf(f)), now, existing)
      && missing == TasksTo(f, SourceOf(f), NewTargets(f, m.HealthyNodes(), Room(f, replicaCount)), now)
    ensures RepairTasks(m, KeysUpTo(files, i + 1), replicaCount, now, ts + existing + missing)
  {
    hide Meta.HealthyNodes, Meta.ListFiles, NewTargets, SourceOf, CopyTask, ExistingTargets, Repairable;
    ListedFiles(m);
    var (f, nodes) := (files[i], m.HealthyNodes());
    var ids := NewTargets(f, nodes, Room(f, replicaCount));
    assert KeysUpTo(files, i + 1) == KeysUpTo(files, i) + {f.key};
    forall t ensures t in missing <==> t.target in ids && t == CopyTask(f, SourceOf(f), t.target, now) {
      MissingTasks(f, SourceOf(f), ids, now, t);
    }
    forall t ensures t in existing || t in missing <==> IsRepairTask(f, nodes, replicaCount, now, t) {
      assert t.target in ids <==> t.target in Elements(ids);
    }
  }

  lemma MissingTasks(f: FileMetadata, source: string, ids: seq<string>, now: Time, t: ReplicationTask)
    ensures t in TasksTo(f, source, ids, now) <==> t.target in ids && t == CopyTask(f, source, t.target, now)
  {
    hide TaskId;
    var ts := TasksTo(f, source, ids, now);
    if t in ts {
      var i :| 0 <= i < |ts| && ts[i] == t;
    }
    if t.target in ids && t == CopyTask(f, source, t.target, now) {
      var i :| 0 <= i < |ids| && ids[i] == t.target;
      assert ts[i] == t;
    }
  }

  method HealthyReplicasOf(f: FileMetadata) returns (r: seq<ReplicaMetadata>)
    requires FileOk(f)
    ensures r == HealthyReplicas(f)
  {
    ReplicaOrder(f);
    r := CollectSorted(f.replicas, HealthyReplica, ReplicaLess, (x: ReplicaMetadata) => x.nodeId);
  }
}

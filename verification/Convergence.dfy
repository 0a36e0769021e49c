/** One pass of the manager loop over working nodes: what it takes for repair and drain to finish the job. */
module Convergence {
  import opened Types
  import opened Naming
  import opened Chunking
  import opened Objects
  import opened Transfer
  import opened Metadata
  import opened Queue
  import opened Placement
  import opened Repair
  import opened Refinement
  import opened Recovery
  import opened Service
  import opened Cluster
  import opened Durability

  /** The files a repair pass can do something for. */
  ghost function RepairableKeys(m: Meta): set<string> {
    set k | k in m.files && Repairable(m.files[k])
  }

  /** Each copy a repair pass wants for this file has its ID free, or a copy to that replica is waiting already. */
  ghost predicate Retriable(m: Meta, b: Backlog, replicaCount: int, key: string)
    requires key in m.files
  {
    forall n <- RepairTargets(m.files[key], m.HealthyNodes(), replicaCount) ::
      TaskId(key, m.files[key].version, SourceOf(m.files[key]), n) !in b.tasks || CopyWaits(b, key, n)
  }

  /** The repairable files all of whose copies will be made. */
  ghost function RetriableKeys(m: Meta, b: Backlog, replicaCount: int): set<string> {
    set k | k in RepairableKeys(m) && Retriable(m, b, replicaCount, k)
  }

  /** No node that holds or may get a replica has a ':' in its ID. */
  ghost predicate PlainNodeIds(m: Meta) {
    && (forall id <- m.nodes :: ':' !in id)
    && forall k <- m.files, n <- m.files[k].replicas :: ':' !in n
  }

  lemma TargetsArePlain(m: Meta, replicaCount: int, key: string, n: string)
    requires m.Valid() && PlainNodeIds(m) && key in m.files && Repairable(m.files[key])
    requires n in RepairTargets(m.files[key], m.HealthyNodes(), replicaCount)
    ensures ':' !in n && ':' !in SourceOf(m.files[key])
  {
    hide NewTargets, Meta.HealthyNodes, SourceOf, HealthyNode, FileOk;
    var (f, nodes) := (m.files[key], m.HealthyNodes());
    HealthyNodesDistinct(m);
    NewTargetsCount(f, nodes, Room(f, replicaCount));
    HealthyNodesListing(m);
    FileIsOk(m, key);
    SourceIsHealthy(f);
  }

  lemma FileIsOk(m: Meta, key: string)
    requires m.Valid() && key in m.files
    ensures FileOk(m.files[key]) && m.files[key].key == key
  {
  }

  lemma TasksArePlain(m: Meta, replicaCount: int, now: Time, tasks: seq<ReplicationTask>)
    requires m.Valid() && PlainNodeIds(m) && RepairTasks(m, m.files.Keys, replicaCount, now, tasks)
    ensures forall t <- tasks :: NoColons(t)
  {
    hide RepairTargets, Meta.HealthyNodes, SourceOf, TaskId, Repairable, Meta.Valid, PlainNodeIds;
    forall t | t in tasks ensures NoColons(t) {
      var k :| k in m.files && Repairable(m.files[k])
        && IsRepairTask(m.files[k], m.HealthyNodes(), replicaCount, now, t);
      TargetsArePlain(m, replicaCount, k, t.target);
    }
  }

  /** The copy a pass wants, seen from the repaired metadata, will succeed. */
  lemma RepairCopyIsGood(
      h: Hasher, m: Meta, c: Contents, data: map<string, Bytes>, replicaCount: int, now: Time, key: string, n: string)
    requires m.Valid() && Honest(h, m, c, data) && key in m.files && Repairable(m.files[key])
    requires n in RepairTargets(m.files[key], m.HealthyNodes(), replicaCount)
    ensures GoodTask(h, Repaired(m, m.files.Keys, replicaCount, now), c, data,
      CopyTask(m.files[key], SourceOf(m.files[key]), n, now))
  {
    hide RepairTargets, Meta.HealthyNodes, SourceOf, TaskId, Holds, RepairedFile, FileOk, Partition;
    var (f, nodes) := (m.files[key], m.HealthyNodes());
    FileIsOk(m, key);
    HealthyNodesDistinct(m);
    RepairedReplicas(f, nodes, replicaCount, now, n);
    RepairedShape(f, nodes, replicaCount, now);
    SourceIsHealthy(f);
    TargetIsOther(m, f, replicaCount, n);
    assert HonestFile(h, f, c, data[key]);
  }

  lemma HonestAfterRepair(h: Hasher, m: Meta, c: Contents, data: map<string, Bytes>, replicaCount: int, now: Time)
    requires m.Valid() && Honest(h, m, c, data)
    ensures Honest(h, Repaired(m, m.files.Keys, replicaCount, now), c, data)
  {
    hide Meta.HealthyNodes, Holds, RepairedFile, FileOk, FileDescribes, Repairable;
    var (m', nodes) := (Repaired(m, m.files.Keys, replicaCount, now), m.HealthyNodes());
    HealthyNodesDistinct(m);
    forall k | k in m'.files && !m'.files[k].deleted ensures k in data && HonestFile(h, m'.files[k], c, data[k]) {
      var (f, f') := (m.files[k], m'.files[k]);
      if Repairable(f) {
        RepairedShape(f, nodes, replicaCount, now);
        SameDescription(h, data[k], f, f');
        RepairedHolders(h, m, c, data[k], replicaCount, now, k);
      }
    }
  }

  lemma RepairedHolders(h: Hasher, m: Meta, c: Contents, bytes: Bytes, replicaCount: int, now: Time, key: string)
    requires m.Valid() && key in m.files && Repairable(m.files[key]) && HonestFile(h, m.files[key], c, bytes)
    ensures var g := RepairedFile(m.files[key], m.HealthyNodes(), replicaCount, now);
      forall n <- g.replicas :: g.replicas[n].state == ReplicaHealthy ==> Holds(c, n, g.key, g.version, bytes)
  {
    hide Meta.HealthyNodes, Holds, FileDescribes, Repairable, NewTargets;
  }

  /** A good waiting copy stays good when the pass adds replicas. */
  lemma GoodAfterRepair(
      h: Hasher, m: Meta, c: Contents, data: map<string, Bytes>, replicaCount: int, now: Time, t: ReplicationTask)
    requires m.Valid() && GoodTask(h, m, c, data, t)
    ensures GoodTask(h, Repaired(m, m.files.Keys, replicaCount, now), c, data, t)
  {
    hide Meta.HealthyNodes, SourceOf, GoodSource, RepairedFile, FileOk, Repairable, RepairTargets, NeedsCopy;
    var f := m.files[t.key];
    FileIsOk(m, t.key);
    HealthyNodesDistinct(m);
    if Repairable(f) {
      RepairedReplicas(f, m.HealthyNodes(), replicaCount, now, t.target);
      RepairedShape(f, m.HealthyNodes(), replicaCount, now);
    }
  }

  /** After a repair pass on honest metadata and a queue of good copies, everything retriable is on course. */
  lemma SteadyAfterRepair(
      h: Hasher, m: Meta, b: Backlog, c: Contents, data: map<string, Bytes>, replicaCount: int, now: Time,
      tasks: seq<ReplicationTask>)
    requires m.Valid() && b.Valid() && Honest(h, m, c, data) && AllGood(h, m, b, c, data) && PlainNodeIds(m)
    requires RepairTasks(m, m.files.Keys, replicaCount, now, tasks)
    ensures Steady(h, Repaired(m, m.files.Keys, replicaCount, now), b.Enqueue(tasks), c, data,
                   RetriableKeys(m, b, replicaCount))
  {
    hide Honest, GoodTask, Repaired, RepairTargets, Meta.HealthyNodes, SourceOf, TaskId, Backlog.Enqueue, Repairable,
         Meta.Valid, Backlog.Valid, PlainNodeIds;
    var (m', b') := (Repaired(m, m.files.Keys, replicaCount, now), b.Enqueue(tasks));
    HonestAfterRepair(h, m, c, data, replicaCount, now);
    TasksArePlain(m, replicaCount, now, tasks);
    EnqueueKeeps(b, tasks);
    forall id | id in b'.tasks && b'.tasks[id].state == TaskPending ensures GoodTask(h, m', c, data, b'.tasks[id]) {
      if id in b.tasks {
        GoodAfterRepair(h, m, c, data, replicaCount, now, b.tasks[id]);
      } else {
        var i: nat :| FirstWith(tasks, i, id) && b'.tasks[id] == tasks[i];
        assert tasks[i] in tasks;
        var k :| k in m.files && Repairable(m.files[k])
                 && IsRepairTask(m.files[k], m.HealthyNodes(), replicaCount, now, tasks[i]);
        RepairCopyIsGood(h, m, c, data, replicaCount, now, k, tasks[i].target);
      }
    }
    CoveredAfterRepair(m, b, replicaCount, now, tasks);
  }

  lemma CoveredAfterRepair(m: Meta, b: Backlog, replicaCount: int, now: Time, tasks: seq<ReplicationTask>)
    requires m.Valid() && b.Valid()
    requires RepairTasks(m, m.files.Keys, replicaCount, now, tasks) && forall t <- tasks :: NoColons(t)
    ensures Covered(Repaired(m, m.files.Keys, replicaCount, now), b.Enqueue(tasks), RetriableKeys(m, b, replicaCount))
  {
    hide RepairTargets, Meta.HealthyNodes, SourceOf, TaskId, Backlog.Enqueue, Repairable, RepairTasks, RepairedFile,
         NeedsCopy, FileOk, Backlog.Valid, NoColons, CopyWaits;
    var (m', b') := (Repaired(m, m.files.Keys, replicaCount, now), b.Enqueue(tasks));
    HealthyNodesDistinct(m);
    forall k, n | k in RetriableKeys(m, b, replicaCount) && n in m'.files[k].replicas
                  && NeedsCopy(m'.files[k].replicas[n].state)
      ensures CopyWaits(b', k, n)
    {
      var f := m.files[k];
      FileIsOk(m, k);
      RepairedReplicas(f, m.HealthyNodes(), replicaCount, now, n);
      if TaskId(k, f.version, SourceOf(f), n) in b.tasks {
        WaitsStill(b, tasks, k, n);
      } else {
        WantedCopy(m, replicaCount, now, tasks, k, n);
        var t := CopyTask(f, SourceOf(f), n, now);
        FreeIdQueued(m, b, replicaCount, now, tasks, t);
        ThisWaits(b', t.id);
      }
    }
  }

  lemma WaitsStill(b: Backlog, tasks: seq<ReplicationTask>, key: string, n: string)
    requires CopyWaits(b, key, n)
    ensures CopyWaits(b.Enqueue(tasks), key, n)
  {
    hide Backlog.Enqueue;
    EnqueueKeeps(b, tasks);
    var id :| id in b.tasks && b.tasks[id].state == TaskPending && b.tasks[id].key == key && b.tasks[id].target == n;
    assert id in b.Enqueue(tasks).tasks && b.Enqueue(tasks).tasks[id] == b.tasks[id];
  }

  lemma ThisWaits(b: Backlog, id: string)
    requires id in b.tasks && b.tasks[id].state == TaskPending
    ensures CopyWaits(b, b.tasks[id].key, b.tasks[id].target)
  {
  }

  /** A wanted copy whose ID is taken, with no copy to that replica waiting, is not queued by the pass. */
  lemma TakenIdNotQueued(
      m: Meta, b: Backlog, replicaCount: int, now: Time, tasks: seq<ReplicationTask>, key: string, n: string)
    requires m.Valid() && RepairTasks(m, m.files.Keys, replicaCount, now, tasks) && key in m.files
    requires TaskId(key, m.files[key].version, SourceOf(m.files[key]), n) in b.tasks && !CopyWaits(b, key, n)
    ensures !CopyWaits(b.Enqueue(tasks), key, n)
  {
    hide RepairTargets, Meta.HealthyNodes, SourceOf, TaskId, Backlog.Enqueue, Repairable, FileOk;
    EnqueueKeeps(b, tasks);
    forall t | t in tasks && t.key == key && t.target == n ensures t.id in b.tasks {
      var k :| k in m.files && Repairable(m.files[k])
               && IsRepairTask(m.files[k], m.HealthyNodes(), replicaCount, now, t);
      assert m.files[k].key == k;
    }
    forall i: nat | i < |tasks| && tasks[i].key == key && tasks[i].target == n ensures tasks[i].id in b.tasks {
      assert tasks[i] in tasks;
    }
  }

  /** Every replica of f that is not marked deleted is healthy and holds the file. */
  ghost predicate FullyReplicated(f: FileMetadata, c: Contents, data: Bytes) {
    forall n <- f.replicas :: f.replicas[n].state != ReplicaDeleted ==>
      f.replicas[n].state == ReplicaHealthy && Holds(c, n, f.key, f.version, data)
  }

  lemma NoneNeedsCopy(h: Hasher, f: FileMetadata, c: Contents, data: Bytes)
    requires HonestFile(h, f, c, data) && forall n <- f.replicas :: !NeedsCopy(f.replicas[n].state)
    ensures FullyReplicated(f, c, data)
  {
    hide Holds;
  }

  /**
   * The repair and drain part of one manager tick. With some healthy node, working nodes, honest healthy replicas, good
   * waiting copies and node IDs free of ':', a repairable file ends up with every replica healthy and holding it, on
   * the nodes that the repair pass chose, exactly if each copy it wants has its ID free or a copy to that replica
   * waiting.
   */
  method RepairAndDrain(
      service: ManagedFileService, h: Hasher, text: Error -> string, now: Time, ghost data: map<string, Bytes>)
    returns (copies: nat, stopped: Error)
    requires service.Valid()
    modifies service.coordinator.metadata, service.coordinator.tasks, service.objects
    ensures service.Valid()
    ensures var (m, b, c) :=
        old((service.coordinator.metadata.State(), service.coordinator.tasks.State(), service.objects.contents));
      var rc := service.coordinator.replicaCount;
      m.HealthyNodes() != [] && service.objects.readsWork && service.objects.writesWork && CollisionFree(h)
      && Honest(h, m, c, data) && AllGood(h, m, b, c, data) && PlainNodeIds(m) ==>
        var (m', c') := (service.coordinator.metadata.State(), service.objects.contents);
        && stopped == ErrNoPendingTasks
        && SameReplicaNodes(Repaired(m, m.files.Keys, rc, now), m')
        && forall k <- RepairableKeys(m) ::
             k in m'.files && k in data && (FullyReplicated(m'.files[k], c', data[k]) <==> Retriable(m, b, rc, k))
  {
    hide Meta.HealthyNodes, CollisionFree, Honest, AllGood, PlainNodeIds, Repaired, RepairTasks, SameReplicaNodes,
         Steady, RepairableKeys, FullyReplicated, Meta.Valid, Backlog.Valid, Backlog.Enqueue, OnlyWaitingMoved,
         Service.Waiting, Retriable, RetriableKeys, OthersLeft;
    ghost var (m, b, c) :=
      (service.coordinator.metadata.State(), service.coordinator.tasks.State(), service.objects.contents);
    ghost var rc := service.coordinator.replicaCount;
    ghost var good := m.HealthyNodes() != [] && service.objects.readsWork && service.objects.writesWork
      && CollisionFree(h)
      && Honest(h, m, c, data) && AllGood(h, m, b, c, data) && PlainNodeIds(m);
    var tasks := service.coordinator.PlanRepair(now);
    if good { SteadyAfterRepair(h, m, b, c, data, rc, now, tasks); }
    var at;
    copies, stopped, at := service.Drain(h, text, data, RetriableKeys(m, b, rc));
    if good {
      Outcome(h, m, service.coordinator.metadata.State(), b, service.coordinator.tasks.State(),
        service.objects.contents,
              data, rc, now, tasks, at);
    }
  }

  lemma LiveStays(m: Meta, m': Meta, replicaCount: int, now: Time)
    requires SameReplicaNodes(Repaired(m, m.files.Keys, replicaCount, now), m')
    ensures forall k <- RepairableKeys(m) :: k in m'.files && !m'.files[k].deleted
  {
    hide Meta.HealthyNodes, SourceOf, NewTargets;
  }

  /** A replica that needed a copy and for which none waited is not whole. */
  lemma NotWhole(
      m: Meta, m': Meta, b: Backlog, c: Contents, bytes: Bytes, replicaCount: int, now: Time,
      tasks: seq<ReplicationTask>, key: string)
    requires m.Valid() && RepairTasks(m, m.files.Keys, replicaCount, now, tasks) && key in RepairableKeys(m)
    requires !Retriable(m, b, replicaCount, key) && key in m'.files
    requires OthersLeft(Repaired(m, m.files.Keys, replicaCount, now), m', b.Enqueue(tasks))
    ensures !FullyReplicated(m'.files[key], c, bytes)
  {
    hide RepairTargets, Meta.HealthyNodes, SourceOf, TaskId, Backlog.Enqueue, Repairable, RepairTasks, RepairedFile,
         FileOk, CopyWaits, Holds;
    var f := m.files[key];
    var n :| n in RepairTargets(f, m.HealthyNodes(), replicaCount)
             && TaskId(key, f.version, SourceOf(f), n) in b.tasks && !CopyWaits(b, key, n);
    TakenIdNotQueued(m, b, replicaCount, now, tasks, key, n);
    FileIsOk(m, key);
    HealthyNodesDistinct(m);
    RepairedReplicas(f, m.HealthyNodes(), replicaCount, now, n);
  }

  lemma Outcome(
      h: Hasher, m: Meta, m': Meta, b: Backlog, b': Backlog, c: Contents, data: map<string, Bytes>, replicaCount: int,
      now: Time, tasks: seq<ReplicationTask>, at: Time)
    requires m.Valid() && b'.Valid() && RepairTasks(m, m.files.Keys, replicaCount, now, tasks) && b'.Pending(at) == []
    requires Steady(h, m', b', c, data, RetriableKeys(m, b, replicaCount))
    requires SameReplicaNodes(Repaired(m, m.files.Keys, replicaCount, now), m')
    requires OthersLeft(Repaired(m, m.files.Keys, replicaCount, now), m', b.Enqueue(tasks))
    ensures forall k <- RepairableKeys(m) ::
      k in m'.files && k in data && (FullyReplicated(m'.files[k], c, data[k]) <==> Retriable(m, b, replicaCount, k))
  {
    hide Backlog.Pending, Backlog.Valid, FullyReplicated, HonestFile, NeedsCopy, Repairable, Retriable, Repaired,
         SameReplicaNodes, OthersLeft, RepairTasks, Meta.Valid, Backlog.Enqueue;
    SteadyEnd(h, m', b', c, data, RetriableKeys(m, b, replicaCount), at);
    LiveStays(m, m', replicaCount, now);
    forall k | k in RepairableKeys(m)
      ensures k in m'.files && k in data
        && (FullyReplicated(m'.files[k], c, data[k]) <==> Retriable(m, b, replicaCount, k))
    {
      if Retriable(m, b, replicaCount, k) {
        NoneNeedsCopy(h, m'.files[k], c, data[k]);
      } else {
        NotWhole(m, m', b, c, data[k], replicaCount, now, tasks, k);
      }
    }
  }

  // ----- The hypotheses in reachable states -----

  /** A waiting entry that only the metadata is needed to approve: current, due, from a healthy replica to a replica. */
  ghost predicate CurrentTask(m: Meta, t: ReplicationTask) {
    && t.runAfter == ZERO_TIME && t.key in m.files
    && var f := m.files[t.key];
    && !f.deleted && t.version == f.version && t.target in f.replicas
    && t.source in f.replicas && f.replicas[t.source].state == ReplicaHealthy
  }

  ghost predicate CurrentQueue(m: Meta, b: Backlog) {
    forall id <- b.tasks :: b.tasks[id].state == TaskPending ==> CurrentTask(m, b.tasks[id])
  }

  lemma LiveHonest(h: Hasher, w: World, key: string)
    requires WorldInv(h, w) && key in w.ctl.meta.files && !w.ctl.meta.files[key].deleted
    ensures var f := w.ctl.meta.files[key];
      && f.key == key && Backed(h, w.ctl.log, f)
      && HonestFile(h, f, w.contents, CommittedData(h, w.ctl.log, f))
  {
    hide Holds, FileDescribes, HoldsCommitted;
    LiveSnapshot(h, w.ctl, key);
    InvMeta(h, w.ctl);
    FileIsOk(w.ctl.meta, key);
    var f := w.ctl.meta.files[key];
    var data := CommittedData(h, w.ctl.log, f);
    forall n | n in f.replicas && f.replicas[n].state == ReplicaHealthy
      ensures Holds(w.contents, n, f.key, f.version, data)
    {
      assert IsHealthy(w.ctl.meta, key, n);
      HolderOf(w, n, key, f.version, data);
    }
  }

  lemma HolderOf(w: World, node: string, key: string, version: nat, data: Bytes)
    requires HoldsCommitted(w, node, key, version) && Committed(key, version, data) in w.ctl.log
    ensures Holds(w.contents, node, key, version, data)
  {
  }

  ghost function LiveData(h: Hasher, w: World): (data: map<string, Bytes>)
    requires WorldInv(h, w)
  {
    map k | k in w.ctl.meta.files && !w.ctl.meta.files[k].deleted ::
      (LiveHonest(h, w, k); CommittedData(h, w.ctl.log, w.ctl.meta.files[k]))
  }

  /** A waiting entry approved by the metadata is a copy that will succeed. */
  lemma CurrentIsGood(h: Hasher, w: World, id: string)
    requires WorldInv(h, w) && id in w.ctl.backlog.tasks && CurrentTask(w.ctl.meta, w.ctl.backlog.tasks[id])
    ensures GoodTask(h, w.ctl.meta, w.contents, LiveData(h, w), w.ctl.backlog.tasks[id])
  {
    hide Holds, Partition, Inv, HoldsCommitted, PutHolds, WorkerOk, LogOrdered;
    var t := w.ctl.backlog.tasks[id];
    var f := w.ctl.meta.files[t.key];
    LiveHonest(h, w, t.key);
    InvMeta(h, w.ctl);
    var data := CommittedData(h, w.ctl.log, f);
    assert TaskOk(h, w.ctl.log, w.ctl.meta, t);
    var bytes :| Committed(t.key, t.version, bytes) in w.ctl.log && t.checksum == h(bytes)
      && t.chunks == Partition(h, bytes);
    CommitUnique(w.ctl.log, Committed(t.key, t.version, bytes), Committed(f.key, f.version, data));
  }

  /**
   * After every safe run healthy replicas are honest about some contents of the live files, and waiting entries that
   * the metadata approves are copies that will succeed: the hypotheses of RepairAndDrain can be read off the records.
   */
  lemma ReadyAfterSafeRun(h: Hasher, replicaCount: int, moves: seq<Move>)
    requires replicaCount >= 1 && CollisionFree(h) && SafeRun(h, replicaCount, moves)
    ensures var w := After(h, replicaCount, moves);
      exists data ::
        && Honest(h, w.ctl.meta, w.contents, data)
        && (CurrentQueue(w.ctl.meta, w.ctl.backlog) ==> AllGood(h, w.ctl.meta, w.ctl.backlog, w.contents, data))
  {
    hide SafeRun, WorldInv, HonestFile, GoodTask, CurrentTask;
    var w := After(h, replicaCount, moves);
    HistoryInv(h, replicaCount, moves);
    var data := LiveData(h, w);
    forall k | k in w.ctl.meta.files && !w.ctl.meta.files[k].deleted
      ensures k in data && HonestFile(h, w.ctl.meta.files[k], w.contents, data[k])
    {
      LiveHonest(h, w, k);
    }
    assert Honest(h, w.ctl.meta, w.contents, data);
    if CurrentQueue(w.ctl.meta, w.ctl.backlog) {
      forall id | id in w.ctl.backlog.tasks && w.ctl.backlog.tasks[id].state == TaskPending
        ensures GoodTask(h, w.ctl.meta, w.contents, data, w.ctl.backlog.tasks[id])
      {
        CurrentIsGood(h, w, id);
      }
    }
  }
}

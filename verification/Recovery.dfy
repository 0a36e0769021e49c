/**
 * What repair achieves from every reachable state, when it retries, and how a repair pass can get in the way of a
 * write.
 */
module Recovery {
  import opened Types
  import opened Ordering
  import opened Naming
  import opened Chunking
  import opened Metadata
  import opened Queue
  import opened Placement
  import opened Repair
  import opened Cluster
  import opened Durability
  import opened Service
  import opened Refinement
  import opened Counterexamples

  predicate NoColons(t: ReplicationTask) {
    ':' !in t.source && ':' !in t.target
  }

  // ----- The copies a repair pass leaves in the queue -----

  /** Two copies of the pass with one ID are one copy. */
  lemma SameIdSameCopy(
      m: Meta, replicaCount: int, now: Time, tasks: seq<ReplicationTask>, t: ReplicationTask, u: ReplicationTask)
    requires m.Valid() && RepairTasks(m, m.files.Keys, replicaCount, now, tasks)
    requires t in tasks && u in tasks && t.id == u.id && NoColons(t) && NoColons(u)
    ensures t == u
  {
    hide TaskId, RepairTargets, SourceOf, Repairable, Meta.HealthyNodes, FileOk;
    var nodes := m.HealthyNodes();
    var k :| k in m.files && Repairable(m.files[k]) && IsRepairTask(m.files[k], nodes, replicaCount, now, t);
    var l :| l in m.files && Repairable(m.files[l]) && IsRepairTask(m.files[l], nodes, replicaCount, now, u);
    TaskIdInjective(t.key, t.version, t.source, t.target, u.key, u.version, u.source, u.target);
    assert m.files[k].key == k && m.files[l].key == l;
  }

  /** The copy of f to n, wanted by the pass, is one of its tasks and can still run. */
  lemma WantedCopy(m: Meta, replicaCount: int, now: Time, tasks: seq<ReplicationTask>, key: string, n: string)
    requires m.Valid() && RepairTasks(m, m.files.Keys, replicaCount, now, tasks) && key in m.files
      && Repairable(m.files[key])
    requires n in RepairTargets(m.files[key], m.HealthyNodes(), replicaCount)
    ensures var t := CopyTask(m.files[key], SourceOf(m.files[key]), n, now);
      t in tasks && t.state == TaskPending
  {
    hide TaskId, RepairTargets, SourceOf, Repairable, Meta.HealthyNodes;
    var t := CopyTask(m.files[key], SourceOf(m.files[key]), n, now);
    assert IsRepairTask(m.files[key], m.HealthyNodes(), replicaCount, now, t);
  }

  /** Where the pass finds its ID free, its own copy goes in. */
  lemma FreeIdQueued(m: Meta, b: Backlog, replicaCount: int, now: Time, tasks: seq<ReplicationTask>, t: ReplicationTask)
    requires m.Valid() && RepairTasks(m, m.files.Keys, replicaCount, now, tasks) && t in tasks && t.id !in b.tasks
    requires forall u <- tasks :: NoColons(u)
    ensures t.id in b.Enqueue(tasks).tasks && b.Enqueue(tasks).tasks[t.id] == t
  {
    hide RepairTasks, Meta.Valid, NoColons, Backlog.Enqueue;
    EnqueueKeeps(b, tasks);
    var j :| 0 <= j < |tasks| && tasks[j] == t;
    var i: nat :| FirstWith(tasks, i, t.id) && b.Enqueue(tasks).tasks[t.id] == tasks[i];
    assert tasks[i] in tasks;
    SameIdSameCopy(m, replicaCount, now, tasks, tasks[i], t);
  }

  /**
   * In every reachable state with node IDs free of ':', after a repair pass the queue holds, for each replica the pass
   * wants to copy a file to, exactly that copy: current version, manifest, least healthy source. It can still run
   * exactly if no entry was queued under its ID before, or the one queued was pending.
   */
  lemma {:induction false} RepairRetries(
      h: Hasher, replicaCount: int, steps: seq<Step>, now: Time, tasks: seq<ReplicationTask>, key: string, n: string)
    requires replicaCount >= 1
    requires var s := Run(h, replicaCount, INIT, steps);
      && RepairTasks(s.meta, s.meta.files.Keys, replicaCount, now, tasks)
      && key in s.meta.files && Repairable(s.meta.files[key])
      && n in RepairTargets(s.meta.files[key], s.meta.HealthyNodes(), replicaCount)
      && (forall id <- s.backlog.tasks :: NoColons(s.backlog.tasks[id])) && (forall t <- tasks :: NoColons(t))
    ensures var s := Run(h, replicaCount, INIT, steps);
      var (t, b) := (CopyTask(s.meta.files[key], SourceOf(s.meta.files[key]), n, now), s.backlog.Enqueue(tasks));
      && t.id in b.tasks && SameCopy(b.tasks[t.id], t)
      && (b.tasks[t.id].state == TaskPending <==>
            t.id !in s.backlog.tasks || s.backlog.tasks[t.id].state == TaskPending)
  {
    hide TaskId, RepairTargets, SourceOf, Meta.HealthyNodes, FileOk, Backlog.Enqueue, RepairTasks, Run, LiveOk,
         TasksOk, ReadersOk, RepairsOk, LogOrdered, Partition;
    var s := Run(h, replicaCount, INIT, steps);
    RunInv(h, replicaCount, steps);
    var f := s.meta.files[key];
    var t := CopyTask(f, SourceOf(f), n, now);
    WantedCopy(s.meta, replicaCount, now, tasks, key, n);
    EnqueueKeeps(s.backlog, tasks);
    if t.id in s.backlog.tasks {
      LiveSnapshot(h, s, key);
      RepairTargetOther(s.meta, f, replicaCount, n);
      CopyTaskOk(h, s.log, s.meta, f, SourceOf(f), n, now);
      SkippedIsSameCopy(h, replicaCount, steps, t);
    } else {
      FreeIdQueued(s.meta, s.backlog, replicaCount, now, tasks, t);
    }
  }

  lemma RepairTargetOther(m: Meta, f: FileMetadata, replicaCount: int, n: string)
    requires m.Valid() && f.key in m.files && m.files[f.key] == f && Repairable(f)
    requires n in RepairTargets(f, m.HealthyNodes(), replicaCount)
    ensures n != SourceOf(f)
  {
    hide RepairTargets, SourceOf, Meta.HealthyNodes;
    TargetIsOther(m, f, replicaCount, n);
  }

  /**
   * What one undisturbed repair pass achieves for a repairable file in every reachable state with node IDs free of ':':
   * max(old, min(replicaCount, old replicas joined with healthy nodes)) replicas, and for each one that needs a copy a
   * queue entry that is that copy, from the least healthy replica.
   */
  lemma {:induction false} RepairComplete(
      h: Hasher, replicaCount: int, steps: seq<Step>, now: Time, tasks: seq<ReplicationTask>, key: string)
    requires replicaCount >= 1
    requires var s := Run(h, replicaCount, INIT, steps);
      && RepairTasks(s.meta, s.meta.files.Keys, replicaCount, now, tasks)
      && key in s.meta.files && Repairable(s.meta.files[key])
      && (forall id <- s.backlog.tasks :: NoColons(s.backlog.tasks[id])) && (forall t <- tasks :: NoColons(t))
    ensures var s := Run(h, replicaCount, INIT, steps);
      var (f, g) := (s.meta.files[key], Repaired(s.meta, s.meta.files.Keys, replicaCount, now).files[key]);
      var reach := |f.replicas.Keys + NodeIdSet(s.meta.HealthyNodes())|;
      var goal := if replicaCount < reach then replicaCount else reach;
      && |g.replicas| == (if |f.replicas| < goal then goal else |f.replicas|)
      && SourceOf(f) in g.replicas && g.replicas[SourceOf(f)].state == ReplicaHealthy
      && forall n <- g.replicas :: NeedsCopy(g.replicas[n].state) ==>
           var t := CopyTask(f, SourceOf(f), n, now);
           t.id in s.backlog.Enqueue(tasks).tasks && SameCopy(s.backlog.Enqueue(tasks).tasks[t.id], t)
  {
    hide TaskId, RepairTargets, SourceOf, Meta.HealthyNodes, FileOk, Backlog.Enqueue, RepairTasks, Run, RepairedFile,
         NodeIdSet, NeedsCopy, CopyTask, SameCopy, Repairable, Inv, NoColons;
    var s := Run(h, replicaCount, INIT, steps);
    RunInv(h, replicaCount, steps);
    InvMeta(h, s);
    var f := s.meta.files[key];
    var g := RepairedFile(f, s.meta.HealthyNodes(), replicaCount, now);
    RepairQueued(s.meta, s.backlog, replicaCount, now, tasks, key);
    HealthyNodesDistinct(s.meta);
    forall n | n in g.replicas && NeedsCopy(g.replicas[n].state)
      ensures var t := CopyTask(f, SourceOf(f), n, now);
        t.id in s.backlog.Enqueue(tasks).tasks && SameCopy(s.backlog.Enqueue(tasks).tasks[t.id], t)
    {
      RepairedReplicas(f, s.meta.HealthyNodes(), replicaCount, now, n);
      RepairRetries(h, replicaCount, steps, now, tasks, key, n);
    }
  }

  /**
   * There is a reachable state in which b needs a copy and whatever a repair pass there enqueues leaves its entry
   * done.
   */
  lemma NeverRetried(h: Hasher)
    ensures exists w ::
      && Counterexamples.Reachable(h, 2, w, false) && NeedsDoneCopy(w)
      && forall now: Time, tasks | RepairTasks(w.ctl.meta, w.ctl.meta.files.Keys, 2, now, tasks) ::
           var b := w.ctl.backlog.Enqueue(tasks);
           TaskId("k", 1, "a", "b") in b.tasks && b.tasks[TaskId("k", 1, "a", "b")].state == TaskDone
  {
    hide Counterexamples.Reachable, RepairTasks, TaskId, Backlog.Enqueue;
    DoneCopyReachable(h);
    var w :| Counterexamples.Reachable(h, 2, w, false) && NeedsDoneCopy(w);
    forall now: Time, tasks | RepairTasks(w.ctl.meta, w.ctl.meta.files.Keys, 2, now, tasks)
      ensures var b := w.ctl.backlog.Enqueue(tasks);
        TaskId("k", 1, "a", "b") in b.tasks && b.tasks[TaskId("k", 1, "a", "b")].state == TaskDone
    {
      EnqueueKeeps(w.ctl.backlog, tasks);
    }
  }

  // ----- A repair pass against a write -----

  /** Adding a replica leaves a live file readable exactly if another node than the added one is healthy. */
  lemma AddReplicaExact(m: Meta, key: string, node: string, now: Time)
    requires m.Valid() && key in m.files && !m.files[key].deleted
    ensures var f := m.files[key];
      ReadCandidates(m.AddReplica(key, node, ReplicaPending, now).0, key).Ok? <==>
        exists n <- f.replicas :: n != node && f.replicas[n].state == ReplicaHealthy
  {
    var m' := m.AddReplica(key, node, ReplicaPending, now).0;
    AddQuiet(m, key, node, ReplicaPending, now);
    ReadCandidatesExact(m', key);
    hide Placement.ReadCandidates, Meta.Valid;
    var (f, f') := (m.files[key], m'.files[key]);
    if n :| n in f.replicas && n != node && f.replicas[n].state == ReplicaHealthy { assert n in f'.replicas; }
    if n :| n in f'.replicas && f'.replicas[n].state == ReplicaHealthy { assert n in f.replicas && n != node; }
  }

  /** A pass that runs on a listing older than the record: it will add node as a replica of the listed file. */
  ghost predicate AddsFromListing(s: State, repair: nat, key: string, node: string) {
    repair in s.repairs &&
    exists f <- s.repairs[repair] ::
      f.key == key && Repairable(f) && node in NewTargets(f, s.meta.HealthyNodes(), Room(f, 2))
  }

  lemma EmptyWriteOf(h: Hasher, m: Meta, plan: ReplicaPlan)
    requires PlanOf(m.HealthyNodes(), 2) == Ok(plan)
    ensures WriteOf(h, m, 2, "k", []) == Ok(EmptyWrite(h, "k", m.NextVersion("k"), plan))
  {
    hide Partition, PlanOf, Meta.HealthyNodes;
  }

  /** The first version, while b is the only node. */
  lemma FirstOnB(h: Hasher) returns (steps: seq<Step>, s: State)
    ensures s == Run(h, 2, INIT, steps) && s.writer.Idle? && s.repairs == map[] && s.meta.nodes == map["b" := NODE_B]
    ensures s.meta.files.Keys == {"k"} && s.meta.NextVersion("k") == 2
    ensures var f := s.meta.files["k"];
      f.key == "k" && !f.deleted && FileOk(f) && f.replicas.Keys == {"b"} && f.replicas["b"].state == ReplicaHealthy
  {
    hide Run, Meta.HealthyNodes, PlanOf, FileOf, TasksOf, Backlog.Enqueue, Partition, WriteOf, PutSteps;
    var s1 := INIT.(meta := Meta(map[], map["b" := NODE_B]));
    RunOne(h, 2, INIT, Heartbeat("b", "", 1));
    assert Next(h, 2, INIT, Heartbeat("b", "", 1)) == s1;
    PlanOfOne(s1.meta, NODE_B);
    var put := PutEmptyRun(h, s1, ReplicaPlan(NODE_B, [NODE_B]), 1);
    RunAppend(h, 2, INIT, [Heartbeat("b", "", 1)], put);
    OnBShape(h, s1.meta);
    steps, s := [Heartbeat("b", "", 1)] + put, Run(h, 2, s1, put);
  }

  lemma OnBShape(h: Hasher, m: Meta)
    ensures var f := FileOf(m, EmptyWrite(h, "k", 1, ReplicaPlan(NODE_B, [NODE_B])), 1);
      f.key == "k" && f.version == m.NextVersion("k") && !f.deleted && FileOk(f) && f.replicas.Keys == {"b"}
      && f.replicas["b"].state == ReplicaHealthy
  {
    hide Partition;
    assert NodeIds([NODE_B]) == ["b"];
  }

  /** The listing of the first version asks for a replica on a. */
  lemma ListedForA(m: Meta, f: FileMetadata)
    requires m.files == map["k" := f] && m.nodes == TWO_NODES && f.key == "k" && !f.deleted && FileOk(f)
    requires f.replicas.Keys == {"b"} && f.replicas["b"].state == ReplicaHealthy
    ensures f in m.ListFiles() && Repairable(f) && NewTargets(f, m.HealthyNodes(), Room(f, 2)) == ["a"]
  {
    hide HealthyReplicas, Meta.HealthyNodes, PlanOf;
    assert f in Kept(m.files, AnyFile) by { assert AnyFile(m.files["k"]); }
    assert f in Elements(m.ListFiles());
    HealthyReplicasListing(f);
    assert f.replicas["b"] in HealthyReplicas(f);
    PlanOfTwo(m);
    assert |f.replicas| == |f.replicas.Keys| == 1;
    assert [NODE_A, NODE_B][1..] == [NODE_B];
  }

  /** A second node appears and a repair pass starts. */
  lemma SecondNode(h: Hasher, s: State) returns (s': State)
    requires s.repairs == map[] && s.meta.nodes == map["b" := NODE_B]
    ensures s' == Run(h, 2, s, [Heartbeat("a", "", 1), RepairList(0)])
    ensures s' == s.(meta := s.meta.(nodes := TWO_NODES), repairs := map[0 := s.meta.(nodes := TWO_NODES).ListFiles()])
  {
    hide Run, Meta.ListFiles;
    RunTwo(h, 2, s, Heartbeat("a", "", 1), RepairList(0));
    s' := Run(h, 2, s, [Heartbeat("a", "", 1), RepairList(0)]);
    assert map["b" := NODE_B]["a" := NODE_A] == TWO_NODES;
  }

  /**
   * A reachable state in which the current version is readable, and a repair pass that started from an older listing
   * takes its only healthy replica, the primary just written, out of service.
   */
  lemma LostPrimaryReachable(h: Hasher)
    ensures exists steps ::
      var s := Run(h, 2, INIT, steps);
      && AddsFromListing(s, 0, "k", "a") && ReadCandidates(s.meta, "k").Ok?
      && ReadCandidates(Next(h, 2, s, RepairAdd("k", "a", 3)).meta, "k") == Err(ErrNoReadableReplicas)
  {
    hide Run, AddsFromListing, Placement.ReadCandidates, Next, Inv, Meta.Valid;
    var steps := RewrittenUnderRepair(h);
    RunInv(h, 2, steps);
    InvMeta(h, Run(h, 2, INIT, steps));
    PrimaryLost(h, Run(h, 2, INIT, steps));
  }

  /** The second version is on a and b, while the pass still works from the listing of the first. */
  lemma RewrittenUnderRepair(h: Hasher) returns (all: seq<Step>)
    ensures var s := Run(h, 2, INIT, all);
      && AddsFromListing(s, 0, "k", "a") && FreshOnA(s.meta)
  {
    hide Run, Meta.HealthyNodes, PlanOf, FileOf, TasksOf, Backlog.Enqueue, Partition, WriteOf, PutSteps, Meta.ListFiles,
         NewTargets, Repairable, AddsFromListing, FileOk, Meta.NextVersion;
    var steps, s := FirstOnB(h);
    var s1 := SecondNode(h, s);
    var more := [Heartbeat("a", "", 1), RepairList(0)];
    RunAppend(h, 2, INIT, steps, more);
    PlanOfTwo(s1.meta);
    var put := PutEmptyRun(h, s1, TWO_PLAN, 2);
    RunAppend(h, 2, INIT, steps + more, put);
    PublishedShape(h, s1.meta, "k", s1.meta.NextVersion("k"), 2);
    assert s.meta.files == map["k" := s.meta.files["k"]];
    all := steps + more + put;
    StaleListing(s1, Run(h, 2, INIT, all), s.meta.files["k"]);
  }

  ghost predicate FreshOnA(m: Meta) {
    && "k" in m.files
    && var f := m.files["k"];
    && !f.deleted && f.replicas.Keys == {"a", "b"} && f.replicas["a"].state == ReplicaHealthy
    && f.replicas["b"].state == ReplicaPending
  }

  /** Writing the empty file, as steps. */
  lemma PutEmptyRun(h: Hasher, s: State, plan: ReplicaPlan, now: Time) returns (put: seq<Step>)
    requires s.writer.Idle? && PlanOf(s.meta.HealthyNodes(), 2) == Ok(plan)
    ensures var (f, s') := (FileOf(s.meta, EmptyWrite(h, "k", s.meta.NextVersion("k"), plan), now), Run(h, 2, s, put));
      s'.meta == s.meta.Store(f) && s'.writer == s.writer && s'.repairs == s.repairs
  {
    hide Run, Meta.HealthyNodes, PlanOf, FileOf, TasksOf, Backlog.Enqueue, WriteOf, PutSteps, Meta.Store,
         Meta.NextVersion, Partition;
    EmptyWriteOf(h, s.meta, plan);
    PutIsRun(h, 2, s, "k", [], now);
    put := PutSteps("k", [], |Partition(h, [])|, now);
  }

  lemma StaleListing(s1: State, s2: State, f: FileMetadata)
    requires s1.meta.files == map["k" := f] && s1.meta.nodes == TWO_NODES && s2.meta.nodes == TWO_NODES
    requires s1.repairs == map[0 := s1.meta.ListFiles()] && s2.repairs == s1.repairs
    requires f.key == "k" && !f.deleted && FileOk(f) && f.replicas.Keys == {"b"}
      && f.replicas["b"].state == ReplicaHealthy
    ensures AddsFromListing(s2, 0, "k", "a")
  {
    hide Meta.HealthyNodes, PlanOf, NewTargets, Repairable, Meta.ListFiles;
    ListedForA(s1.meta, f);
    PlanOfTwo(s1.meta);
    PlanOfTwo(s2.meta);
  }

  lemma PrimaryLost(h: Hasher, s: State)
    requires s.meta.Valid() && FreshOnA(s.meta)
    ensures ReadCandidates(s.meta, "k").Ok?
    ensures ReadCandidates(Next(h, 2, s, RepairAdd("k", "a", 3)).meta, "k") == Err(ErrNoReadableReplicas)
  {
    hide HealthyReplicas, Prioritized, FileOk;
    ReadCandidatesExact(s.meta, "k");
    AddReplicaExact(s.meta, "k", "a", 3);
  }
}

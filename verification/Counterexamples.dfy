/**
 * Runs of the machine with the storage nodes that end where the documentation says the system does not end up: replicas
 * that are healthy and hold nothing of the current version, and a replica whose copy is never retried.
 */
module Counterexamples {
  import opened Types
  import opened Ordering
  import opened Naming
  import opened Chunking
  import opened Objects
  import opened Metadata
  import opened Queue
  import opened Placement
  import opened Repair
  import opened Cluster
  import opened Durability
  import opened Histories
  import opened Bolt

  const NODE_A := NodeMetadata("a", "", NodeHealthy, 1)
  const NODE_B := NodeMetadata("b", "", NodeHealthy, 1)
  const TWO_NODES := map["a" := NODE_A, "b" := NODE_B]
  const TWO_PLAN := ReplicaPlan(NODE_A, [NODE_A, NODE_B])
  const NO_NAME := NodeMetadata("", "", NodeHealthy, 1)
  const NO_NAME_PLAN := ReplicaPlan(NO_NAME, [NO_NAME])

  /** Some run leads to w, one without finished copies if quiet is set. */
  ghost predicate Reachable(h: Hasher, replicaCount: int, w: World, quiet: bool)
    requires replicaCount >= 1
  {
    exists moves: seq<Move> :: After(h, replicaCount, moves) == w && (quiet ==> forall m <- moves :: !m.WorkFinish?)
  }

  lemma Reach(h: Hasher, replicaCount: int, w: World, move: Move, quiet: bool)
    requires replicaCount >= 1
    requires Reachable(h, replicaCount, w, quiet) && (quiet ==> !move.WorkFinish?)
    ensures Reachable(h, replicaCount, Move1(h, replicaCount, w, move), quiet)
  {
    hide Move1;
    var moves: seq<Move> :| After(h, replicaCount, moves) == w && (quiet ==> forall m <- moves :: !m.WorkFinish?);
    assert (moves + [move])[..|moves|] == moves;
    assert After(h, replicaCount, moves + [move]) == Move1(h, replicaCount, w, move);
  }

  lemma StartReachable(h: Hasher, replicaCount: int, quiet: bool)
    requires replicaCount >= 1
    ensures Reachable(h, replicaCount, EMPTY_WORLD, quiet)
  {
    assert After(h, replicaCount, []) == EMPTY_WORLD;
  }

  /** A reachable state in which no copy has finished comes from a run whose finishes are all safe. */
  lemma QuietFinishesSafe(h: Hasher, w: World)
    requires Reachable(h, 2, w, true)
    ensures exists moves :: After(h, 2, moves) == w && FinishesSafe(h, 2, moves)
  {
    hide FinishSafe;
    var moves: seq<Move> :| After(h, 2, moves) == w && forall m <- moves :: !m.WorkFinish?;
    assert FinishesSafe(h, 2, moves);
  }

  // ----- Writing an empty file -----

  lemma PlanOfTwo(m: Meta)
    requires m.nodes == TWO_NODES
    ensures m.HealthyNodes() == [NODE_A, NODE_B] && PlanOf(m.HealthyNodes(), 2) == Ok(TWO_PLAN)
  {
    hide SortedSeq;
    var nodes := Kept(m.nodes, HealthyNode);
    assert nodes == {NODE_A, NODE_B} by { assert HealthyNode(m.nodes["a"]) && HealthyNode(m.nodes["b"]); }
    KeptOrderTotal(m.nodes, HealthyNode, NodeLess, (n: NodeMetadata) => n.id);
    SortedSeqSorted(NodeLess, nodes);
    assert Elements([NODE_A, NODE_B]) == nodes;
    assert StringLess("a", "b");
    SortedUnique(NodeLess, [NODE_A, NODE_B], m.HealthyNodes());
    assert m.HealthyNodes()[..2] == [NODE_A, NODE_B];
  }

  lemma PlanOfOne(m: Meta, node: NodeMetadata)
    requires m.nodes == map[node.id := node] && node.state == NodeHealthy
    ensures PlanOf(m.HealthyNodes(), 2) == Ok(ReplicaPlan(node, [node]))
  {
    hide SortedSeq;
    assert Kept(m.nodes, HealthyNode) == {node} by { assert HealthyNode(m.nodes[node.id]); }
    var nodes := m.HealthyNodes();
    assert |nodes| == 1 && nodes[0] in Elements(nodes);
    assert nodes[..1] == nodes == [node];
  }

  function EmptyWrite(h: Hasher, key: string, version: nat, plan: ReplicaPlan): PreparedWrite {
    PreparedWrite(key, version, 0, h([]), Partition(h, []), plan.primary, plan.replicas)
  }

  lemma OneChunk(h: Hasher)
    ensures Partition(h, []) == [ChunkMetadata(0, 0, 0, h([]))] && Slice([], 0) == []
  {
    assert Slice([], 0) == [];
  }

  /** Writing the empty file from an idle state, up to its publication. */
  lemma PutEmpty(
      h: Hasher, replicaCount: int, w: World, key: string, plan: ReplicaPlan, now: Time, quiet: bool)
    returns (w': World)
    requires replicaCount >= 1
    requires Reachable(h, replicaCount, w, quiet) && w.ctl.writer.Idle?
      && PlanOf(w.ctl.meta.HealthyNodes(), replicaCount) == Ok(plan)
    ensures Reachable(h, replicaCount, w', quiet)
    ensures var prep := EmptyWrite(h, key, w.ctl.meta.NextVersion(key), plan);
      var f := FileOf(w.ctl.meta, prep, now);
      && w'.ctl == w.ctl.(meta := w.ctl.meta.Store(f), writer := Published(f),
                          log := w.ctl.log + [Committed(key, w.ctl.meta.NextVersion(key), [])])
      && w'.contents == w.contents[ChunkPlace(plan.primary.id, key, w.ctl.meta.NextVersion(key), 0) := []]
      && w'.worker == w.worker
  {
    hide ChunkPlace, Reachable, Meta.HealthyNodes, PlanOf, FileOf, Meta.Store, Partition, Slice, Meta.NextVersion, Next;
    OneChunk(h);
    Reach(h, replicaCount, w, Control(PutStage(key, [])), quiet);
    var w1 := Move1(h, replicaCount, w, Control(PutStage(key, [])));
    Reach(h, replicaCount, w1, Control(PutPlan), quiet);
    var w2 := Move1(h, replicaCount, w1, Control(PutPlan));
    Reach(h, replicaCount, w2, Control(PutPrepare), quiet);
    var w3 := Move1(h, replicaCount, w2, Control(PutPrepare));
    EmptyPrepared(h, replicaCount, w.ctl, key, plan);
    Reach(h, replicaCount, w3, WriteChunk, quiet);
    var w4 := Move1(h, replicaCount, w3, WriteChunk);
    Reach(h, replicaCount, w4, Control(PutPublish(now)), quiet);
    w' := Move1(h, replicaCount, w4, Control(PutPublish(now)));
    EmptyPublished(h, replicaCount, w.ctl, key, plan, now);
  }

  lemma EmptyPrepared(h: Hasher, replicaCount: int, s: State, key: string, plan: ReplicaPlan)
    requires replicaCount >= 1
    requires s.writer.Idle? && PlanOf(s.meta.HealthyNodes(), replicaCount) == Ok(plan)
    ensures Next(h, replicaCount, Next(h, replicaCount, Next(h, replicaCount, s, PutStage(key, [])), PutPlan),
      PutPrepare) ==
            s.(writer := Writing(EmptyWrite(h, key, s.meta.NextVersion(key), plan), [], 0))
  {
    hide Meta.HealthyNodes, PlanOf, Partition;
  }

  lemma EmptyPublished(h: Hasher, replicaCount: int, s: State, key: string, plan: ReplicaPlan, now: Time)
    requires replicaCount >= 1
    ensures var prep := EmptyWrite(h, key, s.meta.NextVersion(key), plan);
      var (f, s1) := (FileOf(s.meta, prep, now), Next(h, replicaCount, s.(writer := Writing(prep, [], 0)), PutChunk));
      Next(h, replicaCount, s1, PutPublish(now)) ==
        s.(meta := s.meta.Store(f), writer := Published(f),
          log := s.log + [Committed(key, s.meta.NextVersion(key), [])])
  {
    hide Meta.Store, NodeIds, Partition;
    OneChunk(h);
  }

  /** The published record: the primary is healthy, the other node still waits for its copy. */
  lemma PublishedShape(h: Hasher, m: Meta, key: string, version: nat, now: Time)
    ensures var f := FileOf(m, EmptyWrite(h, key, version, TWO_PLAN), now);
      && f.key == key && f.version == m.NextVersion(key) && f.primary == "a" && !f.deleted && FileOk(f)
      && f.chunks == Partition(h, []) && f.replicas.Keys == {"a", "b"}
      && f.replicas["a"].state == ReplicaHealthy && f.replicas["b"].state == ReplicaPending
  {
    hide Partition;
    assert NodeIds([NODE_A, NODE_B]) == ["a", "b"];
  }

  /** The only queued task copies the file from a to b. */
  lemma OnlyTask(f: FileMetadata, now: Time)
    requires FileOk(f) && f.primary == "a" && f.replicas.Keys == {"a", "b"} && f.replicas["b"].state == ReplicaPending
    ensures TasksOf(f, now).Ok?
    ensures var (b, t) := (NO_TASKS.Enqueue(TasksOf(f, now).value), CopyTask(f, "a", "b", now));
      b.Valid() && b.tasks.Keys == {t.id} && b.tasks[t.id] == t
  {
    hide TaskId, CopyTargets, TasksFrom, Backlog.Enqueue, FileOk;
    var (ts, t) := (TasksOf(f, now).value, CopyTask(f, "a", "b", now));
    forall u ensures u in ts <==> u == t { TasksOfCover(f, now, u); }
    EnqueueKeeps(NO_TASKS, ts);
    var b := NO_TASKS.Enqueue(ts);
    assert t in ts;
    var j :| 0 <= j < |ts| && ts[j] == t;
    forall id | id in b.tasks ensures id == t.id && b.tasks[id] == t {
      var i: nat :| FirstWith(ts, i, id) && b.tasks[id] == ts[i];
      assert ts[i] in ts;
    }
  }

  lemma OnlyPending(b: Backlog, t: ReplicationTask, now: Time)
    requires b.Valid() && b.tasks.Keys == {t.id} && b.tasks[t.id] == t && t.state == TaskPending
      && t.runAfter == ZERO_TIME
    ensures b.Pending(now) != [] && b.Pending(now)[0] == t
  {
    assert t in b.tasks.Values;
    assert t in b.Pending(now);
    assert b.Pending(now)[0] in b.Pending(now);
  }

  /** Starting and copying the only task. */
  lemma CopyEmpty(
      h: Hasher, replicaCount: int, w: World, t: ReplicationTask, now: Time, quiet: bool)
    returns (w': World)
    requires replicaCount >= 1
    requires Reachable(h, replicaCount, w, quiet) && w.worker.Waiting?
    requires w.ctl.backlog.Valid() && w.ctl.backlog.tasks.Keys == {t.id} && w.ctl.backlog.tasks[t.id] == t
    requires t.state == TaskPending && t.runAfter == ZERO_TIME && t.chunks == Partition(h, [])
    ensures Reachable(h, replicaCount, w', quiet) && w'.worker == Copied(Started(t, now))
    ensures w'.ctl.meta == w.ctl.meta && w'.ctl.log == w.ctl.log && w'.ctl.writer == w.ctl.writer
    ensures w'.ctl.backlog == Backlog(w.ctl.backlog.tasks[t.id := Started(t, now)])
    ensures w'.contents == w.contents[ChunkPlace(t.target, t.key, t.version, 0) := []]
  {
    hide ChunkPlace, Reachable, Partition, Backlog.Pending, Backlog.Valid;
    OnlyPending(w.ctl.backlog, t, now);
    Reach(h, replicaCount, w, WorkStart(now), quiet);
    var w1 := Move1(h, replicaCount, w, WorkStart(now));
    assert w1.worker == Copying(Started(t, now));
    var after := w.contents[ChunkPlace(t.target, t.key, t.version, 0) := []];
    EmptyCopied(h, w.contents, after, Started(t, now));
    Reach(h, replicaCount, w1, WorkCopied(after), quiet);
    w' := Move1(h, replicaCount, w1, WorkCopied(after));
  }

  lemma EmptyCopied(h: Hasher, before: Contents, after: Contents, t: ReplicationTask)
    requires t.chunks == Partition(h, []) && after == before[ChunkPlace(t.target, t.key, t.version, 0) := []]
    ensures CopyOutcome(h, before, after, t, true)
  {
    hide ChunkPlace;
    OneChunk(h);
    assert ChunkPlace(t.target, t.key, t.version, t.chunks[0].index) in Places(t.target, t.key, t.version, t.chunks);
  }

  /** Two heartbeats. */
  lemma StartNodes(h: Hasher, quiet: bool) returns (w: World)
    ensures Reachable(h, 2, w, quiet) && w == EMPTY_WORLD.(ctl := INIT.(meta := Meta(map[], TWO_NODES)))
  {
    hide Reachable;
    StartReachable(h, 2, quiet);
    Reach(h, 2, EMPTY_WORLD, Control(Heartbeat("a", "", 1)), quiet);
    var w1 := Move1(h, 2, EMPTY_WORLD, Control(Heartbeat("a", "", 1)));
    Reach(h, 2, w1, Control(Heartbeat("b", "", 1)), quiet);
    w := Move1(h, 2, w1, Control(Heartbeat("b", "", 1)));
  }

  /** What the record of the first version looks like while b waits for its copy. */
  ghost predicate FirstRecord(m: Meta) {
    && m.nodes == TWO_NODES && m.files.Keys == {"k"}
    && var f := m.files["k"];
    && f.key == "k" && f.version == 1 && !f.deleted && FileOk(f) && f.replicas.Keys == {"a", "b"}
    && f.replicas["a"].state == ReplicaHealthy && f.replicas["b"].state == ReplicaPending
  }

  /** The first version is written, queued and copied, but its task is not finished yet. */
  lemma FirstVersion(h: Hasher) returns (w: World)
    ensures Reachable(h, 2, w, true) && w.ctl.writer.Idle? && FirstRecord(w.ctl.meta)
    ensures w.worker.Copied? && w.worker.task.key == "k" && w.worker.task.target == "b"
    ensures w.worker.task.id == TaskId("k", 1, "a", "b") && w.worker.task.id in w.ctl.backlog.tasks
    ensures w.contents == map[ChunkPlace("a", "k", 1, 0) := [], ChunkPlace("b", "k", 1, 0) := []]
  {
    hide Reachable, ChunkPlace, FileOf, TasksOf, Backlog.Enqueue, Backlog.Valid, TaskId, Partition, CopyTask, FileOk,
         PlanOf, Meta.HealthyNodes;
    var w2 := StartNodes(h, true);
    PlanOfTwo(w2.ctl.meta);
    var w3 := PutEmpty(h, 2, w2, "k", TWO_PLAN, 1, true);
    var f := w3.ctl.writer.file;
    PublishedShape(h, w2.ctl.meta, "k", 1, 1);
    OnlyTask(f, 1);
    Reach(h, 2, w3, Control(PutEnqueue(1)), true);
    var w4 := Move1(h, 2, w3, Control(PutEnqueue(1)));
    TaskFields(f, 1);
    w := CopyEmpty(h, 2, w4, CopyTask(f, "a", "b", 1), 2, true);
  }

  lemma TaskFields(f: FileMetadata, now: Time)
    ensures var t := CopyTask(f, "a", "b", now);
      t.state == TaskPending && t.runAfter == ZERO_TIME && t.chunks == f.chunks && t.target == "b" && t.key == f.key
      && t.version == f.version && t.id == TaskId(f.key, f.version, "a", "b")
  {
  }

  lemma LoseQuiet(h: Hasher, w: World)
    requires Reachable(h, 2, w, true)
    ensures Reachable(h, 2, w, false)
  {
  }

  // ----- A stale finish -----

  lemma NothingOnB(c: Contents)
    requires c == map[ChunkPlace("a", "k", 1, 0) := [], ChunkPlace("b", "k", 1, 0) := []]
    ensures ChunkPlace("b", "k", 2, 0) !in c[ChunkPlace("a", "k", 2, 0) := []]
  {
    hide ChunkPlace;
    PlacesDiffer("b", "k", 2, 0, "a", "k", 1, 0);
    PlacesDiffer("b", "k", 2, 0, "b", "k", 1, 0);
    PlacesDiffer("b", "k", 2, 0, "a", "k", 2, 0);
  }

  /** Write, copy, write again, finish the copy: b is healthy and lacks the second version. */
  lemma StaleFinishReachable(h: Hasher)
    ensures exists w :: Reachable(h, 2, w, false) && !HealthyHold(w)
  {
    hide Reachable, ChunkPlace, FileOf, HealthyHold, Move1, PlanOf, Meta.HealthyNodes, Partition;
    var w := FirstVersion(h);
    PlanOfTwo(w.ctl.meta);
    var w' := PutEmpty(h, 2, w, "k", TWO_PLAN, 3, true);
    PublishedShape(h, w.ctl.meta, "k", 2, 3);
    NothingOnB(w.contents);
    assert w'.ctl.log[|w.ctl.log|] == Committed("k", 2, []);
    LoseQuiet(h, w');
    Reach(h, 2, w', WorkFinish(4), false);
    FinishedStale(h, w', 4);
  }

  /** Finishing a copy of version 1 to b once version 2 is published and nothing of it is on b. */
  lemma FinishedStale(h: Hasher, w: World, now: Time)
    requires w.worker.Copied? && w.worker.task.key == "k" && w.worker.task.target == "b"
    requires "k" in w.ctl.meta.files && !w.ctl.meta.files["k"].deleted && "b" in w.ctl.meta.files["k"].replicas
    requires w.ctl.meta.files["k"].version == 2 && Committed("k", 2, []) in w.ctl.log
    requires ChunkPlace("b", "k", 2, 0) !in w.contents
    ensures !HealthyHold(Move1(h, 2, w, WorkFinish(now)))
  {
    hide ChunkPlace, Move1, Holds;
    FinishedMeta(h, w, now);
    var w' := Move1(h, 2, w, WorkFinish(now));
    assert IsHealthy(w'.ctl.meta, "k", "b") && w'.ctl.meta.Version("k") == 2;
    assert Committed("k", 2, []) in w'.ctl.log;
    NotHeld(w'.contents, "b", "k", 2);
    assert !HoldsCommitted(w', "b", "k", 2);
  }

  lemma FinishedMeta(h: Hasher, w: World, now: Time)
    requires w.worker.Copied?
    ensures var (w', t) := (Move1(h, 2, w, WorkFinish(now)), w.worker.task);
      && w'.ctl.meta == w.ctl.meta.MarkReplica(t.key, t.target, ReplicaHealthy, now).0
      && w'.contents == w.contents && w'.ctl.log == w.ctl.log
  {
    hide Meta.MarkReplica, Backlog.MarkDone;
  }

  lemma NotHeld(c: Contents, node: string, key: string, version: nat)
    requires ChunkPlace(node, key, version, 0) !in c
    ensures !Holds(c, node, key, version, [])
  {
    assert Lookup(c, ChunkPlace(node, key, version, 0)).Err?;
  }

  // ----- A refused commit -----

  /** Refusing the commit of a published empty file and deleting its chunk from a primary that is healthy. */
  lemma RefusedDeletes(h: Hasher, w: World)
    requires w.ctl.writer.Published? && Refusable(w.ctl.writer.file) && w.ctl.writer.file.chunks == Partition(h, [])
    requires var f := w.ctl.writer.file;
      && IsHealthy(w.ctl.meta, f.key, f.primary) && w.ctl.meta.Version(f.key) == f.version
      && Committed(f.key, f.version, []) in w.ctl.log
    ensures var f := w.ctl.writer.file;
      !HealthyHold(Move1(h, 2, w, RefuseCommit({ChunkPlace(f.primary, f.key, f.version, 0)})))
  {
    hide ChunkPlace, Refusable, Holds, IsHealthy;
    var f := w.ctl.writer.file;
    var removed := {ChunkPlace(f.primary, f.key, f.version, 0)};
    OneChunk(h);
    assert ChunkPlace(f.primary, f.key, f.version, f.chunks[0].index) in Places(f.primary, f.key, f.version, f.chunks);
    RefusedWorld(h, 2, w, removed);
    var w' := Move1(h, 2, w, RefuseCommit(removed));
    NotHeld(w'.contents, f.primary, f.key, f.version);
    assert !HoldsCommitted(w', f.primary, f.key, f.version);
  }

  lemma OneNoName(h: Hasher) returns (w: World)
    ensures Reachable(h, 2, w, true) && w == EMPTY_WORLD.(ctl := INIT.(meta := Meta(map[], map["" := NO_NAME])))
  {
    hide Reachable;
    StartReachable(h, 2, true);
    Reach(h, 2, EMPTY_WORLD, Control(Heartbeat("", "", 1)), true);
    w := Move1(h, 2, EMPTY_WORLD, Control(Heartbeat("", "", 1)));
  }

  lemma NoNameShape(h: Hasher, m: Meta)
    ensures var f := FileOf(m, EmptyWrite(h, "k", 1, NO_NAME_PLAN), 1);
      && f.key == "k" && f.version == m.NextVersion("k") && f.primary == "" && !f.deleted
           && f.chunks == Partition(h, [])
      && "" in f.replicas && f.replicas[""].state == ReplicaHealthy
  {
    hide Partition;
    assert NodeIds([NO_NAME]) == [""];
  }

  /**
   * The primary has no name: the Put fails after publishing, and its healthy primary holds nothing, with no finish to
   * blame.
   */
  lemma RefusedCommitReachable(h: Hasher)
    ensures exists moves :: FinishesSafe(h, 2, moves) && !HealthyHold(After(h, 2, moves))
  {
    hide Reachable, ChunkPlace, FileOf, HealthyHold, Move1, PlanOf, Meta.HealthyNodes, Partition, FinishesSafe, After;
    var w := OneNoName(h);
    PlanOfOne(w.ctl.meta, NO_NAME);
    var w' := PutEmpty(h, 2, w, "k", NO_NAME_PLAN, 1, true);
    NoNameShape(h, w.ctl.meta);
    var f := w'.ctl.writer.file;
    assert w'.ctl.log[0] == Committed("k", 1, []);
    var removed := {ChunkPlace(f.primary, f.key, f.version, 0)};
    Reach(h, 2, w', RefuseCommit(removed), true);
    RefusedDeletes(h, w');
    QuietFinishesSafe(h, Move1(h, 2, w', RefuseCommit(removed)));
  }

  /** The longest key the database accepts. */
  function LongKey(): string {
    seq(MAX_KEY_SIZE, i => 'k')
  }

  lemma LongTaskId(key: string, version: nat, source: string, target: string)
    requires |key| >= MAX_KEY_SIZE
    ensures !KeyFits(TaskId(key, version, source, target))
  {
    hide Decimal;
  }

  /** The same with named nodes and a persistent queue: the key can be stored, the ID of its copy cannot. */
  lemma UnstorableCopyReachable(h: Hasher)
    ensures KeyFits(LongKey())
    ensures exists w ::
      && Reachable(h, 2, w, true) && LongKey() in w.ctl.meta.files && w.ctl.meta.nodes == TWO_NODES
      && !HealthyHold(w)
  {
    hide Reachable, ChunkPlace, FileOf, HealthyHold, PlanOf, Meta.HealthyNodes, Partition, TaskId;
    var key := LongKey();
    var w := StartNodes(h, true);
    PlanOfTwo(w.ctl.meta);
    var w' := PutEmpty(h, 2, w, key, TWO_PLAN, 1, true);
    PublishedShape(h, w.ctl.meta, key, 1, 1);
    var f := w'.ctl.writer.file;
    LongTaskId(key, 1, "a", "b");
    assert "b" in f.replicas && Refusable(f);
    assert w'.ctl.log[0] == Committed(key, 1, []);
    var removed := {ChunkPlace(f.primary, f.key, f.version, 0)};
    Reach(h, 2, w', RefuseCommit(removed), true);
    RefusedDeletes(h, w');
    UnstorableFiles(h, w', removed);
  }

  lemma UnstorableFiles(h: Hasher, w: World, removed: set<Place>)
    ensures Move1(h, 2, w, RefuseCommit(removed)).ctl.meta == w.ctl.meta
  {
    hide Refuses;
  }

  // ----- A copy that is never retried -----

  /** The copy to b is done, then a read finds b without the file: b needs a copy and its entry is done. */
  ghost predicate NeedsDoneCopy(w: World) {
    && w.ctl.meta.Valid() && "k" in w.ctl.meta.files
    && var f := w.ctl.meta.files["k"];
    && Repairable(f) && SourceOf(f) == "a" && f.version == 1 && "b" in ExistingTargets(f, "a")
    && TaskId("k", 1, "a", "b") in w.ctl.backlog.tasks
    && w.ctl.backlog.tasks[TaskId("k", 1, "a", "b")].state == TaskDone
  }

  lemma DoneCopyReachable(h: Hasher)
    ensures exists w :: Reachable(h, 2, w, false) && NeedsDoneCopy(w)
  {
    hide Reachable, TaskId, FileOk, Move1, FirstRecord, Meta.MarkReplica, SourceOf, Repairable, ExistingTargets,
         Meta.Valid;
    var w := FirstVersion(h);
    LoseQuiet(h, w);
    Reach(h, 2, w, WorkFinish(3), false);
    var w1 := Move1(h, 2, w, WorkFinish(3));
    Reach(h, 2, w1, Control(Mark("k", "b", ReplicaMissing, 4)), false);
    var w2 := Move1(h, 2, w1, Control(Mark("k", "b", ReplicaMissing, 4)));
    DoneThenLost(h, w);
    LostOnB(w.ctl.meta);
    ReachableValid(h, w2);
  }

  lemma DoneThenLost(h: Hasher, w: World)
    requires w.worker.Copied? && w.worker.task.key == "k" && w.worker.task.target == "b"
    requires w.worker.task.id in w.ctl.backlog.tasks
    ensures var w2 := Move1(h, 2, Move1(h, 2, w, WorkFinish(3)), Control(Mark("k", "b", ReplicaMissing, 4)));
      && w2.ctl.meta == w.ctl.meta.MarkReplica("k", "b", ReplicaHealthy, 3).0.MarkReplica("k", "b", ReplicaMissing, 4).0
      && w.worker.task.id in w2.ctl.backlog.tasks && w2.ctl.backlog.tasks[w.worker.task.id].state == TaskDone
  {
    hide Meta.MarkReplica;
  }

  lemma LostOnB(m: Meta)
    requires FirstRecord(m)
    ensures var m' := m.MarkReplica("k", "b", ReplicaHealthy, 3).0.MarkReplica("k", "b", ReplicaMissing, 4).0;
      && "k" in m'.files
      && var f := m'.files["k"];
      Repairable(f) && SourceOf(f) == "a" && f.version == 1 && "b" in ExistingTargets(f, "a")
  {
    hide HealthyReplicas;
    var m' := m.MarkReplica("k", "b", ReplicaHealthy, 3).0.MarkReplica("k", "b", ReplicaMissing, 4).0;
    var f := m'.files["k"];
    assert FileOk(f) && f.replicas.Keys == {"a", "b"} && f.replicas["a"].state == ReplicaHealthy;
    assert f.replicas["b"].state == ReplicaMissing;
    HealthyReplicasListing(f);
    assert f.replicas["a"] in HealthyReplicas(f);
    SourceIsHealthy(f);
  }

  lemma ReachableValid(h: Hasher, w: World)
    requires Reachable(h, 2, w, false)
    ensures w.ctl.meta.Valid()
  {
    var moves :| After(h, 2, moves) == w;
    HistoryControl(h, 2, moves);
    InvMeta(h, w.ctl);
  }
}

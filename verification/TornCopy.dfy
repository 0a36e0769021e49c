/**
 * A run in which a crash tears a copy onto a replica that is healthy already: three nodes, an empty file, a spurious
 * read failure on the primary, and a repair pass that asks for a copy another entry is about to make.
 */
module TornCopy {
  import opened Types
  import opened Ordering
  import opened Naming
  import opened Chunking
  import opened Objects
  import opened Metadata
  import opened Queue
  import opened Placement
  import opened Repair
  import opened Cluster
  import opened Durability
  import opened Histories
  import opened Counterexamples

  const NODE_C := NodeMetadata("c", "", NodeHealthy, 1)
  const THREE_NODES := map["a" := NODE_A, "b" := NODE_B, "c" := NODE_C]
  const THREE_PLAN := ReplicaPlan(NODE_A, [NODE_A, NODE_B, NODE_C])

  type Pair = (string, string)

  function Tid(p: Pair): string {
    TaskId("k", 1, p.0, p.1)
  }

  predicate Plain(p: Pair) {
    ':' !in p.0 && ':' !in p.1
  }

  lemma TidInjective(p: Pair, q: Pair)
    requires Plain(p) && Plain(q)
    ensures Tid(p) == Tid(q) <==> p == q
  {
    TaskIdInjective("k", 1, p.0, p.1, "k", 1, q.0, q.1);
  }

  lemma {:induction false} PrefixLess(prefix: string, s: string, t: string)
    requires StringLess(s, t)
    ensures StringLess(prefix + s, prefix + t)
  {
    if prefix == "" {
      assert prefix + s == s && prefix + t == t;
    } else {
      PrefixLess(prefix[1..], s, t);
      assert (prefix + s)[1..] == prefix[1..] + s && (prefix + t)[1..] == prefix[1..] + t;
    }
  }

  lemma TidLess(p: Pair, q: Pair)
    requires StringLess(p.0 + ":" + p.1, q.0 + ":" + q.1)
    ensures StringLess(Tid(p), Tid(q))
  {
    hide StringLess, Decimal;
    var prefix := "k" + ":" + Decimal(1) + ":";
    PrefixLess(prefix, p.0 + ":" + p.1, q.0 + ":" + q.1);
    assert Tid(p) == prefix + (p.0 + ":" + p.1) && Tid(q) == prefix + (q.0 + ":" + q.1);
  }

  // ----- What a state of the run looks like -----

  /** A waiting copy of the first version between the two nodes. */
  ghost predicate IsCopy(h: Hasher, t: ReplicationTask, p: Pair) {
    && t.id == Tid(p) && t.key == "k" && t.version == 1 && t.target == p.1 && t.chunks == Partition(h, [])
    && t.runAfter == ZERO_TIME && t.state == TaskPending
  }

  /** The queue has entries for all of the pairs, and those in todo wait. */
  ghost predicate Entries(h: Hasher, b: Backlog, all: set<Pair>, todo: set<Pair>) {
    && b.Valid() && todo <= all && (forall p <- all :: Plain(p))
    && b.tasks.Keys == (set p | p in all :: Tid(p))
    && (forall p <- todo :: Tid(p) in b.tasks && IsCopy(h, b.tasks[Tid(p)], p))
    && (forall p <- all :: p !in todo ==> Tid(p) in b.tasks && b.tasks[Tid(p)].state != TaskPending)
  }

  ghost predicate Record(h: Hasher, m: Meta, states: map<string, ReplicaState>) {
    && m.files.Keys == {"k"}
    && var f := m.files["k"];
    && f.key == "k" && f.version == 1 && !f.deleted && FileOk(f) && f.chunks == Partition(h, [])
    && f.replicas.Keys == states.Keys && forall n <- states :: f.replicas[n].state == states[n]
  }

  ghost predicate Scene(h: Hasher, w: World, states: map<string, ReplicaState>, all: set<Pair>, todo: set<Pair>) {
    && Reachable(h, 3, w, false) && w.ctl.writer.Idle? && w.worker.Waiting? && Committed("k", 1, []) in w.ctl.log
    && w.ctl.repairs == map[] && Record(h, w.ctl.meta, states) && Entries(h, w.ctl.backlog, all, todo)
  }

  // ----- The first write -----

  lemma ThreeSorted()
    ensures Sorted(NodeLess, [NODE_A, NODE_B, NODE_C])
    ensures Elements([NODE_A, NODE_B, NODE_C]) == {NODE_A, NODE_B, NODE_C}
  {
    assert StringLess("a", "b") && StringLess("b", "c") && StringLess("a", "c");
  }

  lemma PlanOfThree(m: Meta)
    requires m.nodes == THREE_NODES
    ensures PlanOf(m.HealthyNodes(), 3) == Ok(THREE_PLAN)
  {
    hide SortedSeq;
    var nodes := Kept(m.nodes, HealthyNode);
    assert nodes == {NODE_A, NODE_B, NODE_C} by {
      assert HealthyNode(m.nodes["a"]) && HealthyNode(m.nodes["b"]) && HealthyNode(m.nodes["c"]);
    }
    KeptOrderTotal(m.nodes, HealthyNode, NodeLess, (n: NodeMetadata) => n.id);
    SortedSeqSorted(NodeLess, nodes);
    ThreeSorted();
    hide TotalOn, Sorted, Kept;
    SortedUnique(NodeLess, [NODE_A, NODE_B, NODE_C], m.HealthyNodes());
    assert m.HealthyNodes()[..3] == [NODE_A, NODE_B, NODE_C];
  }

  lemma StartThree(h: Hasher) returns (w: World)
    ensures Reachable(h, 3, w, false) && w == EMPTY_WORLD.(ctl := INIT.(meta := Meta(map[], THREE_NODES)))
  {
    hide Reachable;
    StartReachable(h, 3, false);
    Reach(h, 3, EMPTY_WORLD, Control(Heartbeat("a", "", 1)), false);
    var w1 := Move1(h, 3, EMPTY_WORLD, Control(Heartbeat("a", "", 1)));
    Reach(h, 3, w1, Control(Heartbeat("b", "", 1)), false);
    var w2 := Move1(h, 3, w1, Control(Heartbeat("b", "", 1)));
    Reach(h, 3, w2, Control(Heartbeat("c", "", 1)), false);
    w := Move1(h, 3, w2, Control(Heartbeat("c", "", 1)));
  }

  const FRESH := map["a" := ReplicaHealthy, "b" := ReplicaPending, "c" := ReplicaPending]

  lemma ThreeReplicas()
    ensures var replicas := InitialReplicas("a", ["a", "b", "c"], 1);
      replicas.Keys == FRESH.Keys && forall n <- FRESH :: replicas[n].state == FRESH[n]
  {
  }

  lemma InitialOk(f: FileMetadata, primary: string, ids: seq<string>, now: Time)
    requires f.replicas == InitialReplicas(primary, ids, now)
    ensures FileOk(f)
  {
  }

  lemma ThreeShape(h: Hasher, m: Meta)
    requires m.files == map[]
    ensures var f := FileOf(m, EmptyWrite(h, "k", 1, THREE_PLAN), 1);
      f.primary == "a" && f.key == "k" && Record(h, m.Store(f), FRESH)
  {
    hide Partition, FileOk;
    var f := FileOf(m, EmptyWrite(h, "k", 1, THREE_PLAN), 1);
    assert NodeIds([NODE_A, NODE_B, NODE_C]) == ["a", "b", "c"];
    ThreeReplicas();
    InitialOk(f, "a", ["a", "b", "c"], 1);
  }

  lemma PlainPairs()
    ensures Plain(("a", "b")) && Plain(("a", "c"))
  {
  }

  lemma FirstEntries(h: Hasher, m: Meta, f: FileMetadata)
    requires f.primary == "a" && f.key == "k" && Record(h, m.Store(f), FRESH)
    ensures TasksOf(f, 1).Ok?
    ensures Entries(h, NO_TASKS.Enqueue(TasksOf(f, 1).value), {("a", "b"), ("a", "c")}, {("a", "b"), ("a", "c")})
  {
    hide TaskId, CopyTargets, TasksFrom, Backlog.Enqueue, FileOk, Partition, Plain;
    assert Plain(("a", "b")) && Plain(("a", "c")) by { PlainPairs(); }
    assert m.Store(f).files["k"] == f;
    var (tb, tc) := (CopyTask(f, "a", "b", 1), CopyTask(f, "a", "c", 1));
    TwoTasks(h, m, f);
    TidInjective(("a", "b"), ("a", "c"));
    hide Entries;
    NoEntries(h);
    AddEntry(h, NO_TASKS, {}, {}, ("a", "b"), tb);
    assert {} + {("a", "b")} == {("a", "b")} && {("a", "b")} + {("a", "c")} == {("a", "b"), ("a", "c")};
    AddEntry(h, Backlog(map[tb.id := tb]), {("a", "b")}, {("a", "b")}, ("a", "c"), tc);
    assert map[tb.id := tb][tc.id := tc] == map[tb.id := tb, tc.id := tc];
  }

  lemma NoEntries(h: Hasher)
    ensures Entries(h, NO_TASKS, {}, {})
  {
  }

  lemma TwoTasks(h: Hasher, m: Meta, f: FileMetadata)
    requires f.primary == "a" && f.key == "k" && Record(h, m.Store(f), FRESH)
    ensures TasksOf(f, 1).Ok?
    ensures var (tb, tc) := (CopyTask(f, "a", "b", 1), CopyTask(f, "a", "c", 1));
      NO_TASKS.Enqueue(TasksOf(f, 1).value) == Backlog(map[tb.id := tb, tc.id := tc])
  {
    hide TaskId, CopyTargets, TasksFrom, Backlog.Enqueue, FileOk, Partition;
    assert m.Store(f).files["k"] == f;
    var ts := TasksOf(f, 1).value;
    var (tb, tc) := (CopyTask(f, "a", "b", 1), CopyTask(f, "a", "c", 1));
    forall u ensures u in ts <==> u == tb || u == tc { TasksOfCover(f, 1, u); }
    EnqueueKeeps(NO_TASKS, ts);
    TidInjective(("a", "b"), ("a", "c"));
    var b := NO_TASKS.Enqueue(ts);
    assert tb in ts && tc in ts;
    forall id | id in b.tasks ensures b.tasks[id] == tb || b.tasks[id] == tc {
      var i: nat :| FirstWith(ts, i, id) && b.tasks[id] == ts[i];
      assert ts[i] in ts;
    }
  }

  lemma FirstScene(h: Hasher) returns (w: World)
    ensures Scene(h, w, FRESH, {("a", "b"), ("a", "c")}, {("a", "b"), ("a", "c")})
  {
    hide Reachable, ChunkPlace, FileOf, TasksOf, Backlog.Enqueue, Partition, PlanOf, Meta.HealthyNodes, Entries,
         Record, Meta.Store, Meta.NextVersion;
    var w1 := StartThree(h);
    PlanOfThree(w1.ctl.meta);
    FirstNumber(w1.ctl.meta);
    var w2 := PutEmpty(h, 3, w1, "k", THREE_PLAN, 1, false);
    var f := w2.ctl.writer.file;
    ThreeShape(h, w1.ctl.meta);
    FirstEntries(h, w1.ctl.meta, f);
    Reach(h, 3, w2, Control(PutEnqueue(1)), false);
    w := Move1(h, 3, w2, Control(PutEnqueue(1)));
    assert w.ctl.log[0] == Committed("k", 1, []);
  }

  lemma FirstNumber(m: Meta)
    requires m.files == map[]
    ensures m.NextVersion("k") == 1
  {
  }

  // ----- One round of the worker -----

  lemma HeadIs(h: Hasher, b: Backlog, all: set<Pair>, todo: set<Pair>, p: Pair, now: Time)
    requires Entries(h, b, all, todo) && p in todo && forall q <- todo :: q == p || StringLess(Tid(p), Tid(q))
    ensures b.Pending(now) != [] && b.Pending(now)[0] == b.tasks[Tid(p)]
  {
    hide Tid, StringLess, Backlog.Pending, Partition;
    var t := b.tasks[Tid(p)];
    assert t in b.tasks.Values;
    PendingNotEmpty(b, t, now);
    PendingHead(b, now, t);
    var head := b.Pending(now)[0];
    var q :| q in all && head.id == Tid(q);
    assert q in todo;
    if q != p {
      StringLessTransitive(Tid(p), Tid(q), Tid(p));
      StringLessIrreflexive(Tid(p));
      assert false;
    }
  }

  lemma PendingNotEmpty(b: Backlog, t: ReplicationTask, now: Time)
    requires t in b.tasks.Values && t.state == TaskPending && t.runAfter == ZERO_TIME
    ensures b.Pending(now) != []
  {
    assert t in b.Pending(now);
  }

  lemma EndedEntries(h: Hasher, b: Backlog, all: set<Pair>, todo: set<Pair>, p: Pair, t: ReplicationTask)
    requires Entries(h, b, all, todo) && p in todo && t.id == Tid(p) && t.state != TaskPending
    ensures Entries(h, Backlog(b.tasks[Tid(p) := t]), all, todo - {p})
  {
    hide Tid, Partition;
    forall q | q in all ensures Tid(q) == Tid(p) <==> q == p { TidInjective(p, q); }
  }

  lemma MarkedRecord(h: Hasher, m: Meta, states: map<string, ReplicaState>, n: string, state: ReplicaState, now: Time)
    requires Record(h, m, states) && n in states
    ensures Record(h, m.MarkReplica("k", n, state, now).0, states[n := state])
  {
    hide Partition;
  }

  /** The first waiting copy is made and finished. */
  lemma Round(
      h: Hasher, w: World, states: map<string, ReplicaState>, all: set<Pair>, todo: set<Pair>, p: Pair, now: Time)
    returns (w': World)
    requires Scene(h, w, states, all, todo) && p in todo && p.1 in states
    requires forall q <- todo :: q == p || StringLess(Tid(p), Tid(q))
    ensures Scene(h, w', states[p.1 := ReplicaHealthy], all, todo - {p})
  {
    hide Reachable, Record, Entries, Tid, Partition, Move1, StringLess, ChunkPlace, CopyOutcome, Meta.MarkReplica;
    HeadIs(h, w.ctl.backlog, all, todo, p, now);
    EntryShape(h, w.ctl.backlog, all, todo, p);
    var t := w.ctl.backlog.tasks[Tid(p)];
    var after := w.contents[ChunkPlace(t.target, t.key, t.version, 0) := []];
    EmptyCopied(h, w.contents, after, Started(t, now));
    Reach(h, 3, w, WorkStart(now), false);
    WorkStarts(h, 3, w, now);
    var w1 := Move1(h, 3, w, WorkStart(now));
    Reach(h, 3, w1, WorkCopied(after), false);
    CopiesNow(h, w1, after);
    var w2 := Move1(h, 3, w1, WorkCopied(after));
    Reach(h, 3, w2, WorkFinish(now), false);
    w' := Move1(h, 3, w2, WorkFinish(now));
    FinishesNow(h, w2, now);
    var done := Finished(Started(t, now), now);
    assert w'.ctl.backlog == Backlog(w.ctl.backlog.tasks[Tid(p) := Started(t, now)][Tid(p) := done]);
    assert w.ctl.backlog.tasks[Tid(p) := Started(t, now)][Tid(p) := done] == w.ctl.backlog.tasks[Tid(p) := done];
    EndedEntries(h, w.ctl.backlog, all, todo, p, done);
    MarkedRecord(h, w.ctl.meta, states, p.1, ReplicaHealthy, now);
  }

  lemma EntryShape(h: Hasher, b: Backlog, all: set<Pair>, todo: set<Pair>, p: Pair)
    requires Entries(h, b, all, todo) && p in todo
    ensures b.Valid() && Tid(p) in b.tasks && IsCopy(h, b.tasks[Tid(p)], p)
  {
  }

  lemma CopiesNow(h: Hasher, w: World, after: Contents)
    requires w.worker.Copying? && CopyOutcome(h, w.contents, after, w.worker.task, true)
    ensures Move1(h, 3, w, WorkCopied(after)) == w.(contents := after, worker := Copied(w.worker.task))
  {
    hide CopyOutcome;
  }

  lemma FinishesNow(h: Hasher, w: World, now: Time)
    requires w.worker.Copied? && w.worker.task.id in w.ctl.backlog.tasks
    ensures var (t, b) := (w.worker.task, w.ctl.backlog);
      Move1(h, 3, w, WorkFinish(now)) ==
        w.(ctl := w.ctl.(meta := w.ctl.meta.MarkReplica(t.key, t.target, ReplicaHealthy, now).0,
                         backlog := Backlog(b.tasks[t.id := Finished(b.tasks[t.id], now)])),
           worker := Waiting)
  {
    hide Meta.MarkReplica, Finished;
  }

  // ----- A spurious failure and a repair pass -----

  lemma Lose(
      h: Hasher, w: World, states: map<string, ReplicaState>, all: set<Pair>, todo: set<Pair>, n: string, now: Time)
    returns (w': World)
    requires Scene(h, w, states, all, todo) && n in states
    ensures Scene(h, w', states[n := ReplicaMissing], all, todo)
  {
    hide Reachable, Record, Entries, Meta.MarkReplica;
    Reach(h, 3, w, Control(Mark("k", n, ReplicaMissing, now)), false);
    w' := Move1(h, 3, w, Control(Mark("k", n, ReplicaMissing, now)));
    MarkedRecord(h, w.ctl.meta, states, n, ReplicaMissing, now);
  }

  const LOST := map["a" := ReplicaMissing, "b" := ReplicaHealthy, "c" := ReplicaPending]

  /** With only b healthy, a pass copies from b to a and c. */
  lemma PassTasks(h: Hasher, m: Meta, now: Time)
    requires Record(h, m, LOST)
    ensures var f := m.files["k"];
      forall t <- [CopyTask(f, "b", "a", now), CopyTask(f, "b", "c", now)] :: RepairTask(m.ListFiles(), t)
  {
    hide TaskId, HealthyReplicas, Partition;
    var f := m.files["k"];
    HealthyReplicasListing(f);
    assert f.replicas["b"] in HealthyReplicas(f);
    SourceIsHealthy(f);
    assert SourceOf(f) == "b";
    assert f in Kept(m.files, AnyFile) by { assert AnyFile(m.files["k"]); }
    assert f in Elements(m.ListFiles());
  }

  lemma PassEntries(h: Hasher, b: Backlog, f: FileMetadata, now: Time)
    requires Entries(h, b, {("a", "b"), ("a", "c")}, {("a", "c")})
    requires f.key == "k" && f.version == 1 && f.chunks == Partition(h, [])
    ensures Entries(h, b.Enqueue([CopyTask(f, "b", "a", now), CopyTask(f, "b", "c", now)]),
                    {("a", "b"), ("a", "c"), ("b", "a"), ("b", "c")}, {("a", "c"), ("b", "a"), ("b", "c")})
  {
    hide TaskId, Partition, Entries, Backlog.Enqueue;
    var (t, u) := (CopyTask(f, "b", "a", now), CopyTask(f, "b", "c", now));
    AddEntry(h, b, {("a", "b"), ("a", "c")}, {("a", "c")}, ("b", "a"), t);
    var b1 := Backlog(b.tasks[t.id := t]);
    assert {("a", "b"), ("a", "c")} + {("b", "a")} == {("a", "b"), ("a", "c"), ("b", "a")};
    assert {("a", "c")} + {("b", "a")} == {("a", "c"), ("b", "a")};
    AddEntry(h, b1, {("a", "b"), ("a", "c"), ("b", "a")}, {("a", "c"), ("b", "a")}, ("b", "c"), u);
    assert {("a", "b"), ("a", "c"), ("b", "a")} + {("b", "c")} == {("a", "b"), ("a", "c"), ("b", "a"), ("b", "c")};
    assert {("a", "c"), ("b", "a")} + {("b", "c")} == {("a", "c"), ("b", "a"), ("b", "c")};
    TwoEnqueued(b, t, u);
  }

  lemma AddEntry(h: Hasher, b: Backlog, all: set<Pair>, todo: set<Pair>, p: Pair, t: ReplicationTask)
    requires Entries(h, b, all, todo) && Plain(p) && p !in all && IsCopy(h, t, p)
    ensures t.id !in b.tasks && Entries(h, Backlog(b.tasks[t.id := t]), all + {p}, todo + {p})
  {
    hide Tid, Partition;
    forall q | q in all ensures Tid(q) != Tid(p) { TidInjective(p, q); }
  }

  lemma TwoEnqueued(b: Backlog, t: ReplicationTask, u: ReplicationTask)
    requires t.id !in b.tasks && u.id !in b.tasks && t.id != u.id
    ensures b.Enqueue([t, u]) == Backlog(b.tasks[t.id := t][u.id := u])
  {
    assert [t, u][1..] == [u] && [u][1..] == [];
    var b1 := Backlog(b.tasks[t.id := t]);
    assert b1.Enqueue([u]) == Backlog(b1.tasks[u.id := u]).Enqueue([]);
  }

  lemma Pass(h: Hasher, w: World, now: Time) returns (w': World)
    requires Scene(h, w, LOST, {("a", "b"), ("a", "c")}, {("a", "c")})
    ensures Scene(h, w', LOST, {("a", "b"), ("a", "c"), ("b", "a"), ("b", "c")}, {("a", "c"), ("b", "a"), ("b", "c")})
  {
    hide Reachable, Entries, Backlog.Enqueue, Meta.ListFiles, RepairTask, CopyTask, FileOk, Partition;
    var f := w.ctl.meta.files["k"];
    var ts := [CopyTask(f, "b", "a", now), CopyTask(f, "b", "c", now)];
    PassTasks(h, w.ctl.meta, now);
    PassEntries(h, w.ctl.backlog, f, now);
    Reach(h, 3, w, Control(RepairList(0)), false);
    var w1 := Move1(h, 3, w, Control(RepairList(0)));
    Reach(h, 3, w1, Control(RepairEnqueue(0, ts)), false);
    w' := Move1(h, 3, w1, Control(RepairEnqueue(0, ts)));
    assert map[0 := w.ctl.meta.ListFiles()] - {0} == map[];
  }

  // ----- The crash -----

  /** Starting a copy onto a healthy replica and crashing inside it, with the chunk gone. */
  lemma Tear(
      h: Hasher, w: World, states: map<string, ReplicaState>, all: set<Pair>, p: Pair, now: Time)
    returns (w': World)
    requires Scene(h, w, states, all, {p}) && p.1 in states && states[p.1] == ReplicaHealthy
    ensures Reachable(h, 3, w', false) && !HealthyHold(w')
  {
    hide Reachable, Entries, Tid, Partition, Move1, ChunkPlace, HealthyHold;
    HeadIs(h, w.ctl.backlog, all, {p}, p, now);
    EntryShape(h, w.ctl.backlog, all, {p}, p);
    Reach(h, 3, w, WorkStart(now), false);
    WorkStarts(h, 3, w, now);
    var w1 := Move1(h, 3, w, WorkStart(now));
    var after := w1.contents - {ChunkPlace(p.1, "k", 1, 0)};
    Reach(h, 3, w1, Crash(w1.contents, after, now), false);
    w' := Move1(h, 3, w1, Crash(w1.contents, after, now));
    ChunkLost(h, w1, p.1, now);
  }

  lemma ChunkLost(h: Hasher, w: World, n: string, now: Time)
    requires w.worker.Copying? && w.worker.task.key == "k" && w.worker.task.version == 1 && w.worker.task.target == n
    requires w.worker.task.chunks == Partition(h, []) && w.ctl.writer.Idle?
    requires IsHealthy(w.ctl.meta, "k", n) && w.ctl.meta.Version("k") == 1 && Committed("k", 1, []) in w.ctl.log
    ensures !HealthyHold(Move1(h, 3, w, Crash(w.contents, w.contents - {ChunkPlace(n, "k", 1, 0)}, now)))
  {
    hide ChunkPlace, Holds, IsHealthy, Move1;
    var (t, after) := (w.worker.task, w.contents - {ChunkPlace(n, "k", 1, 0)});
    OneChunk(h);
    assert ChunkPlace(t.target, t.key, t.version, t.chunks[0].index) in Places(t.target, t.key, t.version, t.chunks);
    assert Torn(w, w.contents, after);
    CrashedWorld(h, 3, w, w.contents, after, now);
    NotHeld(after, n, "k", 1);
    assert !HoldsCommitted(w.(contents := after), n, "k", 1);
    assert !HealthyHold(w.(contents := after));
  }

  lemma Orders()
    ensures StringLess(Tid(("a", "b")), Tid(("a", "c")))
    ensures StringLess(Tid(("a", "c")), Tid(("b", "a"))) && StringLess(Tid(("a", "c")), Tid(("b", "c")))
    ensures StringLess(Tid(("b", "a")), Tid(("b", "c")))
  {
    hide Tid;
    assert StringLess("a:b", "a:c") && StringLess("a:c", "b:a") && StringLess("a:c", "b:c")
      && StringLess("b:a", "b:c") by {
      assert StringLess("b", "c") && StringLess("a", "c");
      assert "a:b"[1..] == ":b" && "a:c"[1..] == ":c" && "b:a"[1..] == ":a" && "b:c"[1..] == ":c";
      assert ":b"[1..] == "b" && ":c"[1..] == "c" && ":a"[1..] == "a";
    }
    TidLess(("a", "b"), ("a", "c"));
    TidLess(("a", "c"), ("b", "a"));
    TidLess(("a", "c"), ("b", "c"));
    TidLess(("b", "a"), ("b", "c"));
  }

  /** Write, copy to b, lose sight of a, repair from b, copy to c and a, then crash inside the second copy to c. */
  lemma TornCopyReachable(h: Hasher)
    ensures exists w :: Reachable(h, 3, w, false) && !HealthyHold(w)
  {
    hide Scene, Reachable, Tid, StringLess, HealthyHold;
    Orders();
    var w1 := FirstScene(h);
    var (some, all) := ({("a", "b"), ("a", "c")}, {("a", "b"), ("a", "c"), ("b", "a"), ("b", "c")});
    var w2 := Round(h, w1, FRESH, some, some, ("a", "b"), 2);
    assert some - {("a", "b")} == {("a", "c")};
    var w3 := Lose(h, w2, FRESH["b" := ReplicaHealthy], some, {("a", "c")}, "a", 3);
    assert FRESH["b" := ReplicaHealthy]["a" := ReplicaMissing] == LOST;
    var w4 := Pass(h, w3, 4);
    var w5 := Round(h, w4, LOST, all, {("a", "c"), ("b", "a"), ("b", "c")}, ("a", "c"), 5);
    assert {("a", "c"), ("b", "a"), ("b", "c")} - {("a", "c")} == {("b", "a"), ("b", "c")};
    var w6 := Round(h, w5, LOST["c" := ReplicaHealthy], all, {("b", "a"), ("b", "c")}, ("b", "a"), 6);
    assert {("b", "a"), ("b", "c")} - {("b", "a")} == {("b", "c")};
    var w7 := Tear(h, w6, LOST["c" := ReplicaHealthy]["a" := ReplicaHealthy], all, ("b", "c"), 7);
  }
}

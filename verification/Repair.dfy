/** Which replicas a repair pass adds and which copies it asks for. */
module Repair {
  import opened Types
  import opened Ordering
  import opened Naming
  import opened Metadata
  import opened Queue
  import opened Placement

  ghost predicate Repairable(f: FileMetadata) {
    !f.deleted && SourceOf(f) != ""
  }

  /** Replicas of f that need a copy. */
  ghost function ExistingTargets(f: FileMetadata, source: string): set<string> {
    set n | n in f.replicas && n != source && NeedsCopy(f.replicas[n].state)
  }

  /** The first nodes, in the given order, that hold no replica of f yet, as far as there is room. */
  function NewTargets(f: FileMetadata, nodes: seq<NodeMetadata>, room: int): seq<string> {
    if nodes == [] || room <= 0 then []
    else if nodes[0].id in f.replicas then NewTargets(f, nodes[1..], room)
    else [nodes[0].id] + NewTargets(f, nodes[1..], room - 1)
  }

  function PendingReplicas(ids: seq<string>, now: Time): map<string, ReplicaMetadata> {
    map n | n in ids :: ReplicaMetadata(n, ReplicaPending, now)
  }

  function WithPending(f: FileMetadata, ids: seq<string>, now: Time): FileMetadata {
    if ids == [] then f else f.(replicas := f.replicas + PendingReplicas(ids, now), updatedAt := now)
  }

  function Room(f: FileMetadata, replicaCount: int): int {
    replicaCount - |f.replicas|
  }

  function RepairedFile(f: FileMetadata, nodes: seq<NodeMetadata>, replicaCount: int, now: Time): FileMetadata {
    WithPending(f, NewTargets(f, nodes, Room(f, replicaCount)), now)
  }

  /** The nodes a repair pass asks to copy f to. */
  ghost function RepairTargets(f: FileMetadata, nodes: seq<NodeMetadata>, replicaCount: int): set<string> {
    ExistingTargets(f, SourceOf(f)) + Elements(NewTargets(f, nodes, Room(f, replicaCount)))
  }

  ghost predicate IsRepairTask(
      f: FileMetadata, nodes: seq<NodeMetadata>, replicaCount: int, now: Time, t: ReplicationTask)
    {
    t.target in RepairTargets(f, nodes, replicaCount) && t == CopyTask(f, SourceOf(f), t.target, now)
  }

  /** The metadata once the live files under keys have been gone over. */
  ghost function Repaired(m: Meta, keys: set<string>, replicaCount: int, now: Time): Meta {
    m.(files := map k | k in m.files ::
      if k in keys && Repairable(m.files[k]) then RepairedFile(m.files[k], m.HealthyNodes(), replicaCount, now)
        else m.files[k])
  }

  /** tasks are exactly the copies that the repairable files under keys need. */
  ghost predicate RepairTasks(m: Meta, keys: set<string>, replicaCount: int, now: Time, tasks: seq<ReplicationTask>) {
    forall t :: t in tasks <==>
      exists k <- keys :: k in m.files && Repairable(m.files[k])
        && IsRepairTask(m.files[k], m.HealthyNodes(), replicaCount, now, t)
  }

  // ----- How many replicas -----

  ghost function Missing(f: FileMetadata, nodes: seq<NodeMetadata>): set<string> {
    set n | n in nodes && n.id !in f.replicas :: n.id
  }

  ghost predicate DistinctIds(nodes: seq<NodeMetadata>) {
    forall i, j :: 0 <= i < j < |nodes| ==> nodes[i].id != nodes[j].id
  }

  lemma MissingCons(f: FileMetadata, nodes: seq<NodeMetadata>)
    requires DistinctIds(nodes) && nodes != []
    ensures DistinctIds(nodes[1..])
    ensures nodes[0].id !in Missing(f, nodes[1..])
    ensures Missing(f, nodes) == Missing(f, nodes[1..]) + (if nodes[0].id in f.replicas then {} else {nodes[0].id})
  {
    assert nodes == [nodes[0]] + nodes[1..];
  }

  lemma DistinctCons(x: string, xs: seq<string>)
    requires Distinct(xs) && x !in Elements(xs)
    ensures Distinct([x] + xs) && Elements([x] + xs) == {x} + Elements(xs)
  {
  }

  lemma {:induction false} NewTargetsCount(f: FileMetadata, nodes: seq<NodeMetadata>, room: int)
    requires DistinctIds(nodes)
    ensures var ids := NewTargets(f, nodes, room);
      && Distinct(ids)
      && Elements(ids) <= Missing(f, nodes)
      && |ids| == if room <= 0 then 0 else if |Missing(f, nodes)| < room then |Missing(f, nodes)| else room
    decreases |nodes|, 1
  {
    if nodes == [] {
      assert Missing(f, nodes) == {};
    } else if room > 0 {
      NewTargetsStep(f, nodes, room);
    }
  }

  lemma NewTargetsStep(f: FileMetadata, nodes: seq<NodeMetadata>, room: int)
    requires DistinctIds(nodes) && nodes != [] && room > 0
    ensures var ids := NewTargets(f, nodes, room);
      && Distinct(ids)
      && Elements(ids) <= Missing(f, nodes)
      && |ids| == if |Missing(f, nodes)| < room then |Missing(f, nodes)| else room
    decreases |nodes|, 0
  {
    hide Missing, DistinctIds, Distinct, Elements;
    MissingCons(f, nodes);
    if nodes[0].id in f.replicas {
      NewTargetsCount(f, nodes[1..], room);
    } else {
      NewTargetsCount(f, nodes[1..], room - 1);
      DistinctCons(nodes[0].id, NewTargets(f, nodes[1..], room - 1));
    }
  }

  lemma {:induction false} DistinctSize<T(!new)>(xs: seq<T>)
    requires Distinct(xs)
    ensures |Elements(xs)| == |xs|
  {
    if xs != [] {
      DistinctSize(xs[1..]);
      assert xs == [xs[0]] + xs[1..];
      assert xs[0] !in Elements(xs[1..]);
      assert Elements(xs) == Elements(xs[1..]) + {xs[0]};
    }
  }

  ghost function NodeIdSet(nodes: seq<NodeMetadata>): set<string> {
    set n | n in nodes :: n.id
  }

  /** Repair brings a file to replicaCount replicas, or as near as old replicas and healthy nodes allow; never down. */
  lemma RepairedCount(f: FileMetadata, nodes: seq<NodeMetadata>, replicaCount: int, now: Time)
    requires DistinctIds(nodes)
    ensures var reach := |f.replicas.Keys + NodeIdSet(nodes)|;
      var goal := if replicaCount < reach then replicaCount else reach;
      |RepairedFile(f, nodes, replicaCount, now).replicas| == if |f.replicas| < goal then goal else |f.replicas|
  {
    hide NewTargets, DistinctIds, Distinct, Missing, NodeIdSet, WithPending, Elements;
    var ids := NewTargets(f, nodes, Room(f, replicaCount));
    NewTargetsCount(f, nodes, Room(f, replicaCount));
    DistinctSize(ids);
    PendingKeys(f, ids, now);
    ReachSplit(f, nodes);
    assert |f.replicas.Keys + Elements(ids)| == |f.replicas.Keys| + |Elements(ids)|;
  }

  lemma PendingKeys(f: FileMetadata, ids: seq<string>, now: Time)
    ensures WithPending(f, ids, now).replicas.Keys == f.replicas.Keys + Elements(ids)
    ensures |WithPending(f, ids, now).replicas| == |f.replicas.Keys + Elements(ids)|
      && |f.replicas| == |f.replicas.Keys|
  {
  }

  lemma ReachSplit(f: FileMetadata, nodes: seq<NodeMetadata>)
    ensures f.replicas.Keys !! Missing(f, nodes)
    ensures |f.replicas.Keys + NodeIdSet(nodes)| == |f.replicas.Keys| + |Missing(f, nodes)|
  {
    assert f.replicas.Keys + NodeIdSet(nodes) == f.replicas.Keys + Missing(f, nodes);
  }

  /** After repair exactly the repair targets need a copy; nothing else about a replica has changed. */
  lemma RepairedReplicas(f: FileMetadata, nodes: seq<NodeMetadata>, replicaCount: int, now: Time, n: string)
    requires FileOk(f) && DistinctIds(nodes) && Repairable(f)
    ensures var g := RepairedFile(f, nodes, replicaCount, now);
      && FileOk(g)
      && (n in g.replicas && NeedsCopy(g.replicas[n].state) <==> n in RepairTargets(f, nodes, replicaCount))
      && (n in f.replicas ==> n in g.replicas && g.replicas[n] == f.replicas[n])
  {
    hide NewTargets, DistinctIds, Distinct, SourceOf, HealthyReplicas, Missing, FileOk, Elements, WithPending,
         ExistingTargets;
    var ids := NewTargets(f, nodes, Room(f, replicaCount));
    NewTargetsCount(f, nodes, Room(f, replicaCount));
    SourceIsHealthy(f);
    ReachSplit(f, nodes);
    PendingOk(f, ids, now);
    PendingReplica(f, ids, now, n);
    NeedingReplica(f, n);
  }

  lemma PendingOk(f: FileMetadata, ids: seq<string>, now: Time)
    requires FileOk(f)
    ensures FileOk(WithPending(f, ids, now))
  {
  }

  lemma PendingReplica(f: FileMetadata, ids: seq<string>, now: Time, n: string)
    ensures var g := WithPending(f, ids, now);
      && (n in g.replicas <==> n in f.replicas || n in Elements(ids))
      && (n in Elements(ids) ==> g.replicas[n].state == ReplicaPending)
      && (n in f.replicas && n !in Elements(ids) ==> g.replicas[n] == f.replicas[n])
  {
  }

  lemma NeedingReplica(f: FileMetadata, n: string)
    requires SourceOf(f) in f.replicas && f.replicas[SourceOf(f)].state == ReplicaHealthy
    ensures n in ExistingTargets(f, SourceOf(f)) <==> n in f.replicas && NeedsCopy(f.replicas[n].state)
  {
    hide SourceOf;
  }

  /** The source of a repair is the least of the healthy replicas. */
  lemma SourceIsHealthy(f: FileMetadata)
    requires FileOk(f)
    ensures SourceOf(f) != "" ==> SourceOf(f) in f.replicas && f.replicas[SourceOf(f)].state == ReplicaHealthy
    ensures forall n <- f.replicas :: f.replicas[n].state == ReplicaHealthy ==>
      n == SourceOf(f) || StringLess(SourceOf(f), n)
  {
    HealthyReplicasListing(f);
    var hs := HealthyReplicas(f);
    if hs != [] { assert hs[0] in hs; }
    forall n | n in f.replicas && f.replicas[n].state == ReplicaHealthy
      ensures n == SourceOf(f) || StringLess(SourceOf(f), n)
    {
      assert f.replicas[n] in hs;
      var i :| 0 <= i < |hs| && hs[i] == f.replicas[n];
      assert i > 0 ==> ReplicaLess(hs[0], hs[i]);
    }
  }

  lemma HealthyNodesDistinct(m: Meta)
    requires m.Valid()
    ensures DistinctIds(m.HealthyNodes())
  {
    HealthyNodesListing(m);
    var nodes := m.HealthyNodes();
    forall i, j | 0 <= i < j < |nodes| ensures nodes[i].id != nodes[j].id {
      assert NodeLess(nodes[i], nodes[j]);
      StringLessIrreflexive(nodes[i].id);
    }
  }

  /**
   * One undisturbed repair pass over a repairable file: the number of replicas above, and for each replica that needs a
   * copy some queue entry under the ID of that copy. Recovery says when the entry is that copy.
   */
  lemma RepairQueued(m: Meta, b: Backlog, replicaCount: int, now: Time, tasks: seq<ReplicationTask>, key: string)
    requires m.Valid() && RepairTasks(m, m.files.Keys, replicaCount, now, tasks)
    requires key in m.files && Repairable(m.files[key])
    ensures var (f, g) := (m.files[key], Repaired(m, m.files.Keys, replicaCount, now).files[key]);
      var reach := |f.replicas.Keys + NodeIdSet(m.HealthyNodes())|;
      var goal := if replicaCount < reach then replicaCount else reach;
      && |g.replicas| == (if |f.replicas| < goal then goal else |f.replicas|)
      && (forall n <- g.replicas :: NeedsCopy(g.replicas[n].state) ==>
            TaskId(key, g.version, SourceOf(f), n) in b.Enqueue(tasks).tasks)
      && SourceOf(f) in g.replicas && g.replicas[SourceOf(f)].state == ReplicaHealthy
  {
    hide TaskId, RepairTargets, RepairedFile, NodeIdSet, SourceOf, FileOk, Backlog.Enqueue, NeedsCopy;
    var f := m.files[key];
    var nodes := m.HealthyNodes();
    var g := RepairedFile(f, nodes, replicaCount, now);
    HealthyNodesDistinct(m);
    RepairedCount(f, nodes, replicaCount, now);
    RepairedShape(f, nodes, replicaCount, now);
    SourceIsHealthy(f);
    RepairedReplicas(f, nodes, replicaCount, now, SourceOf(f));
    EnqueueKeeps(b, tasks);
    forall n | n in g.replicas && NeedsCopy(g.replicas[n].state)
      ensures TaskId(key, g.version, SourceOf(f), n) in b.Enqueue(tasks).tasks
    {
      RepairedReplicas(f, nodes, replicaCount, now, n);
      var t := CopyTask(f, SourceOf(f), n, now);
      assert IsRepairTask(f, nodes, replicaCount, now, t);
      assert t in tasks;
      var i :| 0 <= i < |tasks| && tasks[i] == t;
    }
  }

  /**
   * Every task of a pass is an untried copy of a repairable file, from its least healthy replica to a target of the
   * pass.
   */
  lemma RepairTasksExact(
      m: Meta, keys: set<string>, replicaCount: int, now: Time, ts: seq<ReplicationTask>, t: ReplicationTask)
    requires RepairTasks(m, keys, replicaCount, now, ts)
    ensures t in ts <==>
      exists k <- keys ::
        && k in m.files && !m.files[k].deleted && SourceOf(m.files[k]) != ""
        && t.target in RepairTargets(m.files[k], m.HealthyNodes(), replicaCount)
        && IsCopyOf(t, m.files[k], SourceOf(m.files[k]), t.target, now)
  {
    hide TaskId, RepairTargets, SourceOf, Meta.HealthyNodes, IsCopyOf;
    forall k | k in m.files
      ensures IsCopyOf(t, m.files[k], SourceOf(m.files[k]), t.target, now) <==>
              t == CopyTask(m.files[k], SourceOf(m.files[k]), t.target, now)
    {
      CopyTaskIsCopy(m.files[k], SourceOf(m.files[k]), t.target, now, t);
    }
  }

  /** New replicas go to the first nodes, in ID order, that have none: every node passed over comes later. */
  lemma {:induction false} NewTargetsFirst(f: FileMetadata, nodes: seq<NodeMetadata>, room: int)
    requires forall i, j :: 0 <= i < j < |nodes| ==> StringLess(nodes[i].id, nodes[j].id)
    ensures var ids := NewTargets(f, nodes, room);
      && (forall i, j :: 0 <= i < j < |ids| ==> StringLess(ids[i], ids[j]))
      && (forall id <- ids :: id !in f.replicas && exists n <- nodes :: n.id == id)
      && (forall id <- ids, n <- nodes :: n.id !in f.replicas && n.id !in ids ==> StringLess(id, n.id))
    decreases |nodes|
  {
    hide StringLess;
    if nodes != [] && room > 0 {
      var rest := nodes[1..];
      assert nodes == [nodes[0]] + rest;
      if nodes[0].id in f.replicas {
        NewTargetsFirst(f, rest, room);
      } else {
        NewTargetsFirst(f, rest, room - 1);
        forall n | n in rest ensures StringLess(nodes[0].id, n.id) {
          var i :| 0 <= i < |rest| && rest[i] == n;
          assert nodes[i + 1] == n;
        }
        var tail := NewTargets(f, rest, room - 1);
        forall j | 0 <= j < |tail| ensures StringLess(nodes[0].id, tail[j]) {
          assert tail[j] in tail;
          var n :| n in rest && n.id == tail[j];
        }
      }
    }
  }

  lemma RepairedShape(f: FileMetadata, nodes: seq<NodeMetadata>, replicaCount: int, now: Time)
    ensures var g := RepairedFile(f, nodes, replicaCount, now);
      g == f.(replicas := g.replicas, updatedAt := g.updatedAt)
  {
  }
}

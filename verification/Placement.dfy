/** Where copies go: placement of new versions, copy tasks, and the order in which replicas are read. */
module Placement {
  import opened Types
  import opened Ordering
  import opened Naming
  import opened Metadata

  // ----- Placement of a new version -----

  /** The first replicaCount healthy nodes in ID order, the first of them primary. */
  function PlanOf(healthy: seq<NodeMetadata>, replicaCount: int): Result<ReplicaPlan>
    requires replicaCount >= 1
  {
    if healthy == [] then Err(ErrNoHealthyNodes)
    else
      var count := if |healthy| < replicaCount then |healthy| else replicaCount;
      Ok(ReplicaPlan(healthy[0], healthy[..count]))
  }

  method Plan(nodes: seq<NodeMetadata>, replicaCount: int) returns (r: Result<ReplicaPlan>)
    requires replicaCount >= 1
    ensures r == PlanOf(SortSlice(NodeLess, Filter(HealthyNode, nodes)), replicaCount)
  {
    hide SortSlice, Filter;
    var healthy: seq<NodeMetadata> := [];
    FilterNothing(HealthyNode);
    for i := 0 to |nodes|
      invariant healthy == Filter(HealthyNode, nodes[..i])
    {
      assert nodes[..i + 1] == nodes[..i] + [nodes[i]];
      FilterSnoc(HealthyNode, nodes[..i], nodes[i]);
      if nodes[i].state == NodeHealthy {
        healthy := healthy + [nodes[i]];
      }
    }
    assert nodes[..|nodes|] == nodes;
    SortedPlanNodes(nodes);
    if |healthy| == 0 {
      return Err(ErrNoHealthyNodes);
    }
    healthy := SortSlice(NodeLess, healthy);
    var count := replicaCount;
    if |healthy| < count {
      count := |healthy|;
    }
    var replicas := healthy[..count];
    r := Ok(ReplicaPlan(replicas[0], replicas));
  }

  lemma FilterNothing<T(!new)>(p: T -> bool)
    ensures Filter(p, []) == []
  {
  }

  lemma SortedPlanNodes(nodes: seq<NodeMetadata>)
    ensures var healthy := Filter(HealthyNode, nodes);
      |SortSlice(NodeLess, healthy)| == |healthy|
  {
    var healthy := Filter(HealthyNode, nodes);
    SortSlicePermutes(NodeLess, healthy);
    assert |multiset(SortSlice(NodeLess, healthy))| == |SortSlice(NodeLess, healthy)|;
  }

  lemma PrefixInOrder<T(!new)>(less: (T, T) -> bool, xs: seq<T>, n: nat)
    requires InOrder(less, xs) && n <= |xs|
    ensures InOrder(less, xs[..n])
  {
  }

  /** The healthy nodes can be put in order with the taken ones in front. */
  ghost predicate FirstOf(taken: seq<NodeMetadata>, healthy: seq<NodeMetadata>) {
    exists rest :: multiset(taken + rest) == multiset(healthy) && InOrder(NodeLess, taken + rest)
  }

  lemma PrefixIsFirst(sorted: seq<NodeMetadata>, healthy: seq<NodeMetadata>, n: nat)
    requires n <= |sorted| && multiset(sorted) == multiset(healthy) && InOrder(NodeLess, sorted)
    ensures InOrder(NodeLess, sorted[..n]) && FirstOf(sorted[..n], healthy)
  {
    hide InOrder, NodeLess;
    PrefixInOrder(NodeLess, sorted, n);
    assert sorted[..n] + sorted[n..] == sorted;
  }

  /**
   * A plan exists exactly if some node is healthy. It takes healthy nodes only, each at most as often as it was
   * offered, in ID order, as many as wanted and available, and passes over none that comes before one it takes.
   */
  lemma PlanExact(nodes: seq<NodeMetadata>, replicaCount: int)
    requires replicaCount >= 1
    ensures var healthy := Filter(HealthyNode, nodes);
      var plan := PlanOf(SortSlice(NodeLess, healthy), replicaCount);
      && (plan.Ok? <==> exists n <- nodes :: n.state == NodeHealthy)
      && (plan.Ok? ==>
            var taken := plan.value.replicas;
            && taken != [] && plan.value.primary == taken[0]
            && |taken| == (if |healthy| < replicaCount then |healthy| else replicaCount)
            && InOrder(NodeLess, taken) && FirstOf(taken, healthy))
  {
    hide SortSlice, Filter, InOrder, StringLess, FirstOf;
    var healthy := Filter(HealthyNode, nodes);
    FilterMembers(HealthyNode, nodes);
    SortSlicePermutes(NodeLess, healthy);
    SortSliceInOrder(NodeLess, (n: NodeMetadata) => n.id, healthy);
    SortedPlanNodes(nodes);
    var sorted := SortSlice(NodeLess, healthy);
    if healthy == [] {
      forall n | n in nodes ensures n.state != NodeHealthy { assert n !in healthy; }
    } else {
      assert healthy[0] in healthy;
      var count := if |healthy| < replicaCount then |healthy| else replicaCount;
      PrefixIsFirst(sorted, healthy, count);
    }
  }

  function NodeIds(nodes: seq<NodeMetadata>): (ids: seq<string>)
    ensures |ids| == |nodes|
  {
    seq(|nodes|, i requires 0 <= i < |nodes| => nodes[i].id)
  }

  /** The record a prepared write publishes. */
  function FileOf(m: Meta, prep: PreparedWrite, now: Time): FileMetadata {
    m.NewFile(prep.key, prep.size, prep.checksum, prep.chunks, prep.primary.id, NodeIds(prep.replicas), now)
  }

  /**
   * A planned file has its tasks: the primary is one of the replicas, so publishing cannot be followed by a refusal.
   */
  lemma PlannedFileHasTasks(m: Meta, prep: PreparedWrite, now: Time)
    requires prep.replicas != [] && prep.primary == prep.replicas[0] && prep.primary.id != ""
    ensures FileOk(FileOf(m, prep, now)) && TasksOf(FileOf(m, prep, now), now).Ok?
  {
    hide CopyTargets, TasksFrom;
    assert NodeIds(prep.replicas)[0] == prep.primary.id;
  }

  // ----- Copy tasks -----

  /** A pending task that copies one version of f from source to target. */
  function CopyTask(f: FileMetadata, source: string, target: string, now: Time): ReplicationTask {
    ReplicationTask(TaskId(f.key, f.version, source, target), f.key, f.version, f.checksum, f.chunks, source, target,
                    TaskPending, 0, "", ZERO_TIME, ZERO_TIME, now, now)
  }

  /** t copies f, as it is, from source to target; it has not been tried yet and can run at once. */
  ghost predicate IsCopyOf(t: ReplicationTask, f: FileMetadata, source: string, target: string, now: Time) {
    && t.id == TaskId(f.key, f.version, source, target)
    && t.key == f.key && t.version == f.version && t.checksum == f.checksum && t.chunks == f.chunks
    && t.source == source && t.target == target
    && t.state == TaskPending && t.attempts == 0 && t.lastError == ""
    && t.runAfter == ZERO_TIME && t.leaseUntil == ZERO_TIME && t.createdAt == now && t.updatedAt == now
  }

  lemma CopyTaskIsCopy(f: FileMetadata, source: string, target: string, now: Time, t: ReplicationTask)
    ensures IsCopyOf(t, f, source, target, now) <==> t == CopyTask(f, source, target, now)
  {
  }

  predicate NeedsCopy(s: ReplicaState) {
    s == ReplicaPending || s == ReplicaStale || s == ReplicaMissing
  }

  predicate AnyReplica(r: ReplicaMetadata) { true }

  function Secondary(f: FileMetadata): ReplicaMetadata -> bool {
    (r: ReplicaMetadata) => r.nodeId != f.primary && NeedsCopy(r.state)
  }

  /** Replicas that still need a copy from the primary, in node order. */
  ghost function CopyTargets(f: FileMetadata): seq<ReplicaMetadata> {
    SortedSeq(ReplicaLess, Kept(f.replicas, Secondary(f)))
  }

  function TasksFrom(
      f: FileMetadata, source: string, targets: seq<ReplicaMetadata>, now: Time): (ts: seq<ReplicationTask>)
    ensures |ts| == |targets|
  {
    seq(|targets|, i requires 0 <= i < |targets| => CopyTask(f, source, targets[i].nodeId, now))
  }

  /** One pending task per replica that needs a copy, or an error if the primary is not a replica. */
  ghost function TasksOf(f: FileMetadata, now: Time): Result<seq<ReplicationTask>> {
    if f.primary == "" || f.primary !in f.replicas then Err(ErrPrimaryUnavailable)
    else Ok(TasksFrom(f, f.primary, CopyTargets(f), now))
  }

  lemma AllReplicasOrder(f: FileMetadata)
    requires FileOk(f)
    ensures Filter(Secondary(f), SortedSeq(ReplicaLess, Kept(f.replicas, AnyReplica))) == CopyTargets(f)
  {
    KeptOrderTotal(f.replicas, AnyReplica, ReplicaLess, (r: ReplicaMetadata) => r.nodeId);
    KeptOfAll(f.replicas, AnyReplica, Secondary(f));
    FilterSortedSeq(ReplicaLess, Secondary(f), Kept(f.replicas, AnyReplica));
  }

  lemma FilterSnoc<T(!new)>(p: T -> bool, xs: seq<T>, x: T)
    ensures Filter(p, xs + [x]) == Filter(p, xs) + (if p(x) then [x] else [])
  {
    if xs == [] {
      assert xs + [x] == [x] && [x][1..] == [];
    } else {
      assert (xs + [x])[1..] == xs[1..] + [x];
      FilterSnoc(p, xs[1..], x);
    }
  }

  method SortedReplicas(f: FileMetadata) returns (r: seq<ReplicaMetadata>)
    requires FileOk(f)
    ensures r == SortedSeq(ReplicaLess, Kept(f.replicas, AnyReplica))
  {
    KeptOrderTotal(f.replicas, AnyReplica, ReplicaLess, (r: ReplicaMetadata) => r.nodeId);
    r := CollectSorted(f.replicas, AnyReplica, ReplicaLess, (r: ReplicaMetadata) => r.nodeId);
  }

  /** The tasks for the first n of the given replicas. */
  function TasksUpTo(f: FileMetadata, all: seq<ReplicaMetadata>, n: nat, now: Time): seq<ReplicationTask>
    requires n <= |all|
  {
    if n == 0 then []
    else TasksUpTo(f, all, n - 1, now) +
         (if Secondary(f)(all[n - 1]) then [CopyTask(f, f.primary, all[n - 1].nodeId, now)] else [])
  }

  lemma {:induction false} TasksUpToFiltered(f: FileMetadata, all: seq<ReplicaMetadata>, n: nat, now: Time)
    requires n <= |all|
    ensures TasksUpTo(f, all, n, now) == TasksFrom(f, f.primary, Filter(Secondary(f), all[..n]), now)
  {
    if n > 0 {
      TasksUpToFiltered(f, all, n - 1, now);
      hide CopyTask;
      assert all[..n] == all[..n - 1] + [all[n - 1]];
      FilterSnoc(Secondary(f), all[..n - 1], all[n - 1]);
    }
  }

  method TasksForFile(f: FileMetadata, now: Time) returns (r: Result<seq<ReplicationTask>>)
    requires FileOk(f)
    ensures r == TasksOf(f, now)
  {
    hide CopyTask, Filter, CopyTargets, SortedSeq, TasksFrom, Kept, FileOk;
    if f.primary == "" {
      return Err(ErrPrimaryUnavailable);
    }
    if f.primary !in f.replicas {
      return Err(ErrPrimaryUnavailable);
    }
    var all := SortedReplicas(f);
    var tasks: seq<ReplicationTask> := [];
    for i := 0 to |all|
      invariant tasks == TasksUpTo(f, all, i, now)
    {
      if all[i].nodeId == f.primary {
        continue;
      }
      if all[i].state != ReplicaPending && all[i].state != ReplicaStale && all[i].state != ReplicaMissing {
        continue;
      }
      tasks := tasks + [CopyTask(f, f.primary, all[i].nodeId, now)];
    }
    assert tasks == TasksFrom(f, f.primary, CopyTargets(f), now) by {
      AllReplicasOrder(f);
      TasksUpToFiltered(f, all, |all|, now);
      assert all[..|all|] == all;
    }
    r := Ok(tasks);
  }

  /**
   * The copy list of a file holds exactly one untried copy, from the primary, for each other replica that is pending,
   * stale or missing, in node order.
   */
  lemma TasksOfExact(f: FileMetadata, now: Time, t: ReplicationTask)
    requires FileOk(f) && TasksOf(f, now).Ok?
    ensures t in TasksOf(f, now).value <==>
      && t.target in f.replicas && t.target != f.primary
      && f.replicas[t.target].state in {ReplicaPending, ReplicaStale, ReplicaMissing}
      && IsCopyOf(t, f, f.primary, t.target, now)
    ensures var ts := TasksOf(f, now).value;
      forall i, j :: 0 <= i < j < |ts| ==> StringLess(ts[i].target, ts[j].target)
  {
    hide TaskId, FileOk, CopyTargets, TasksFrom, IsCopyOf, StringLess;
    TasksOfCover(f, now, t);
    CopyTaskIsCopy(f, f.primary, t.target, now, t);
    TargetsInOrder(f, now);
  }

  lemma TargetsInOrder(f: FileMetadata, now: Time)
    requires FileOk(f) && TasksOf(f, now).Ok?
    ensures var ts := TasksOf(f, now).value;
      forall i, j :: 0 <= i < j < |ts| ==> StringLess(ts[i].target, ts[j].target)
  {
    hide TaskId, StringLess, SortedSeq;
    KeptOrderTotal(f.replicas, Secondary(f), ReplicaLess, (r: ReplicaMetadata) => r.nodeId);
    SortedSeqSorted(ReplicaLess, Kept(f.replicas, Secondary(f)));
  }

  /**
   * Every copy task of a file goes from its primary to another of its replicas that needs one, and none is left out.
   */
  lemma TasksOfCover(f: FileMetadata, now: Time, t: ReplicationTask)
    requires FileOk(f) && TasksOf(f, now).Ok?
    ensures t in TasksOf(f, now).value
       <==> t.target in f.replicas && t.target != f.primary && NeedsCopy(f.replicas[t.target].state)
            && t == CopyTask(f, f.primary, t.target, now)
  {
    var targets, ts := CopyTargets(f), TasksOf(f, now).value;
    assert forall r :: r in targets <==> r in Elements(targets);
    if t in ts {
      var i :| 0 <= i < |ts| && ts[i] == t;
      assert targets[i] in targets;
    }
    if t.target in f.replicas && t.target != f.primary && NeedsCopy(f.replicas[t.target].state)
       && t == CopyTask(f, f.primary, t.target, now) {
      assert f.replicas[t.target] in targets;
      var i :| 0 <= i < |targets| && targets[i] == f.replicas[t.target];
      assert ts[i] == t;
    }
  }

  // ----- Read order -----

  /** The healthy primary first, the other replicas in their order. */
  function Prioritized(primary: string, replicas: seq<ReplicaMetadata>): seq<ReplicaMetadata> {
    if replicas == [] || primary == "" then replicas
    else FirstOn(primary, replicas) + Filter((r: ReplicaMetadata) => r.nodeId != primary, replicas)
  }

  function FirstOn(node: string, replicas: seq<ReplicaMetadata>): seq<ReplicaMetadata> {
    if replicas == [] then []
    else if replicas[0].nodeId == node then [replicas[0]]
    else FirstOn(node, replicas[1..])
  }

  lemma {:induction false} FirstOnFound(node: string, replicas: seq<ReplicaMetadata>, i: nat)
    requires i <= |replicas| && forall j :: 0 <= j < i ==> replicas[j].nodeId != node
    ensures FirstOn(node, replicas) == FirstOn(node, replicas[i..])
    decreases i
  {
    if i > 0 {
      FirstOnFound(node, replicas[1..], i - 1);
      assert replicas[1..][i - 1..] == replicas[i..];
    } else {
      assert replicas[0..] == replicas;
    }
  }

  method PrioritizePrimary(f: FileMetadata, replicas: seq<ReplicaMetadata>) returns (out: seq<ReplicaMetadata>)
    ensures out == Prioritized(f.primary, replicas)
  {
    if |replicas| == 0 || f.primary == "" {
      return replicas;
    }
    out := [];
    var i := 0;
    while i < |replicas|
      invariant 0 <= i <= |replicas| && out == []
      invariant forall j :: 0 <= j < i ==> replicas[j].nodeId != f.primary
    {
      if replicas[i].nodeId == f.primary {
        out := out + [replicas[i]];
        break;
      }
      i := i + 1;
    }
    FirstOnFound(f.primary, replicas, i);
    assert out == FirstOn(f.primary, replicas);
    ghost var others := (r: ReplicaMetadata) => r.nodeId != f.primary;
    for k := 0 to |replicas|
      invariant out == FirstOn(f.primary, replicas) + Filter(others, replicas[..k])
    {
      assert replicas[..k + 1] == replicas[..k] + [replicas[k]];
      FilterSnoc(others, replicas[..k], replicas[k]);
      if replicas[k].nodeId != f.primary {
        out := out + [replicas[k]];
      }
    }
    assert replicas[..|replicas|] == replicas;
  }

  lemma {:induction false} FirstPlusOthers(node: string, replicas: seq<ReplicaMetadata>)
    requires forall i, j :: 0 <= i < j < |replicas| ==> replicas[i].nodeId != replicas[j].nodeId
    ensures multiset(FirstOn(node, replicas)) + multiset(Filter((r: ReplicaMetadata) => r.nodeId != node, replicas)) ==
            multiset(replicas)
  {
    if replicas != [] {
      assert replicas == [replicas[0]] + replicas[1..];
      if replicas[0].nodeId == node {
        NoneOn(node, replicas[1..]);
      } else {
        FirstPlusOthers(node, replicas[1..]);
      }
    }
  }

  lemma {:induction false} FirstOnHit(node: string, replicas: seq<ReplicaMetadata>, r: ReplicaMetadata)
    requires r in replicas && r.nodeId == node
    ensures FirstOn(node, replicas) != [] && FirstOn(node, replicas)[0].nodeId == node
  {
    if replicas[0].nodeId != node {
      assert replicas == [replicas[0]] + replicas[1..];
      FirstOnHit(node, replicas[1..], r);
    }
  }

  /** Reordering loses and invents nothing, and puts the primary first whenever it is among the candidates. */
  lemma PrioritizedPermutes(primary: string, replicas: seq<ReplicaMetadata>)
    requires forall i, j :: 0 <= i < j < |replicas| ==> replicas[i].nodeId != replicas[j].nodeId
    ensures multiset(Prioritized(primary, replicas)) == multiset(replicas)
    ensures primary != "" && (exists r <- replicas :: r.nodeId == primary) ==>
      Prioritized(primary, replicas) != [] && Prioritized(primary, replicas)[0].nodeId == primary
  {
    FirstPlusOthers(primary, replicas);
    if r :| r in replicas && r.nodeId == primary { FirstOnHit(primary, replicas, r); }
  }

  lemma {:induction false} NoneOn(node: string, replicas: seq<ReplicaMetadata>)
    requires forall r <- replicas :: r.nodeId != node
    ensures FirstOn(node, replicas) == []
    ensures Filter((r: ReplicaMetadata) => r.nodeId != node, replicas) == replicas
  {
    if replicas != [] {
      NoneOn(node, replicas[1..]);
      assert replicas == [replicas[0]] + replicas[1..];
    }
  }

  /** Replicas that may serve the current version, in the order they are tried. */
  ghost function ReadCandidates(m: Meta, key: string): Result<ReadPlan> {
    if key !in m.files then Err(ErrMetadataNotFound)
    else
      var f := m.files[key];
      if f.deleted then Err(ErrFileDeleted)
      else
        var replicas := Prioritized(f.primary, HealthyReplicas(f));
        if replicas == [] then Err(ErrNoReadableReplicas) else Ok(ReadPlan(f, replicas))
  }

  /** The candidates are exactly the healthy replicas, each once, a healthy primary first. */
  lemma ReadCandidatesExact(m: Meta, key: string)
    requires m.Valid() && key in m.files && !m.files[key].deleted
    ensures var f := m.files[key];
      ReadCandidates(m, key).Ok? <==> exists n <- f.replicas :: f.replicas[n].state == ReplicaHealthy
    ensures ReadCandidates(m, key).Ok? ==>
      var f, plan := m.files[key], ReadCandidates(m, key).value;
      && plan.metadata == f
      && multiset(plan.replicas) == multiset(HealthyReplicas(f))
      && (forall r :: r in plan.replicas <==>
           r.nodeId in f.replicas && f.replicas[r.nodeId] == r && r.state == ReplicaHealthy)
      && (f.primary != "" && f.primary in f.replicas && f.replicas[f.primary].state == ReplicaHealthy ==>
            plan.replicas[0].nodeId == f.primary)
  {
    var f := m.files[key];
    var healthy := HealthyReplicas(f);
    HealthyReplicasListing(f);
    forall i, j | 0 <= i < j < |healthy| ensures healthy[i].nodeId != healthy[j].nodeId {
      assert ReplicaLess(healthy[i], healthy[j]);
      StringLessIrreflexive(healthy[i].nodeId);
    }
    PrioritizedPermutes(f.primary, healthy);
    var plan := Prioritized(f.primary, healthy);
    assert forall r :: r in plan <==> r in multiset(plan);
    assert forall r :: r in healthy <==> r in multiset(healthy);
    assert plan == [] <==> healthy == [] by { assert |multiset(plan)| == |multiset(healthy)|; }
    if healthy != [] { assert healthy[0] in healthy; }
    if n :| n in f.replicas && f.replicas[n].state == ReplicaHealthy { assert f.replicas[n] in healthy; }
  }

  /** After a healthy primary the candidates come in node order. */
  lemma ReadOrder(m: Meta, key: string)
    requires m.Valid() && ReadCandidates(m, key).Ok?
    ensures var rs := ReadCandidates(m, key).value.replicas;
      forall i, j :: 0 <= i < j < |rs| && rs[i].nodeId != m.files[key].primary ==>
        StringLess(rs[i].nodeId, rs[j].nodeId)
    ensures NodesDistinct(ReadCandidates(m, key).value.replicas)
  {
    hide StringLess;
    var f := m.files[key];
    var healthy := HealthyReplicas(f);
    HealthyReplicasListing(f);
    ListedOnce(healthy);
    if healthy != [] && f.primary != "" {
      var others := (r: ReplicaMetadata) => r.nodeId != f.primary;
      FilterSorted(ReplicaLess, others, healthy);
      FilterMembers(others, healthy);
      FirstOnOne(f.primary, healthy);
      ListedOnce(Filter(others, healthy));
      forall r <- Filter(others, healthy) ensures r.nodeId != f.primary { }
    }
  }

  /** No node is listed twice. */
  ghost predicate NodesDistinct(rs: seq<ReplicaMetadata>) {
    forall i, j :: 0 <= i < j < |rs| ==> rs[i].nodeId != rs[j].nodeId
  }

  lemma ListedOnce(rs: seq<ReplicaMetadata>)
    requires Sorted(ReplicaLess, rs)
    ensures NodesDistinct(rs)
  {
    forall i, j | 0 <= i < j < |rs| ensures rs[i].nodeId != rs[j].nodeId {
      assert ReplicaLess(rs[i], rs[j]);
      StringLessIrreflexive(rs[i].nodeId);
    }
  }

  lemma {:induction false} FirstOnOne(node: string, replicas: seq<ReplicaMetadata>)
    ensures |FirstOn(node, replicas)| <= 1 && forall r <- FirstOn(node, replicas) :: r.nodeId == node
  {
    if replicas != [] && replicas[0].nodeId != node { FirstOnOne(node, replicas[1..]); }
  }

  /** Why a read is refused: exactly one reason applies. */
  lemma ReadRefusals(m: Meta, key: string)
    requires m.Valid()
    ensures ReadCandidates(m, key) == Err(ErrMetadataNotFound) <==> key !in m.files
    ensures ReadCandidates(m, key) == Err(ErrFileDeleted) <==> key in m.files && m.files[key].deleted
    ensures ReadCandidates(m, key) == Err(ErrNoReadableReplicas) <==>
      key in m.files && !m.files[key].deleted
      && forall n <- m.files[key].replicas :: m.files[key].replicas[n].state != ReplicaHealthy
  {
    hide Prioritized, HealthyReplicas;
    if key in m.files && !m.files[key].deleted { ReadCandidatesExact(m, key); }
  }

  /** The least healthy replica, or "" if there is none: where repair copies from. */
  ghost function SourceOf(f: FileMetadata): string {
    if HealthyReplicas(f) == [] then "" else HealthyReplicas(f)[0].nodeId
  }
}

/**
 * Each whole operation of the service, run without interruption, is a run of the step machine: what the machine's
 * theorems say of every run holds of every sequence of service calls, and of their interleavings step by step.
 */
module Refinement {
  import opened Types
  import opened Ordering
  import opened Chunking
  import opened Metadata
  import opened Queue
  import opened Placement
  import opened Repair
  import opened Coordinator
  import opened Cluster
  import opened Service

  lemma {:induction false} RunAppend(h: Hasher, replicaCount: int, s: State, a: seq<Step>, b: seq<Step>)
    requires replicaCount >= 1
    ensures Run(h, replicaCount, s, a + b) == Run(h, replicaCount, Run(h, replicaCount, s, a), b)
    decreases |b|
  {
    hide Next;
    if b == [] {
      assert a + b == a;
    } else {
      assert (a + b)[..|a + b| - 1] == a + b[..|b| - 1];
      RunAppend(h, replicaCount, s, a, b[..|b| - 1]);
    }
  }

  lemma RunOne(h: Hasher, replicaCount: int, s: State, step: Step)
    requires replicaCount >= 1
    ensures Run(h, replicaCount, s, [step]) == Next(h, replicaCount, s, step)
  {
    hide Next;
    assert [step][..0] == [];
  }

  lemma RunTwo(h: Hasher, replicaCount: int, s: State, a: Step, b: Step)
    requires replicaCount >= 1
    ensures Run(h, replicaCount, s, [a, b]) == Next(h, replicaCount, Next(h, replicaCount, s, a), b)
  {
    hide Next;
    RunOne(h, replicaCount, s, a);
    assert [a, b][..1] == [a];
  }

  lemma RunThree(h: Hasher, replicaCount: int, s: State, a: Step, b: Step, c: Step)
    requires replicaCount >= 1
    ensures Run(h, replicaCount, s, [a, b, c]) ==
            Next(h, replicaCount, Next(h, replicaCount, Next(h, replicaCount, s, a), b), c)
  {
    hide Next;
    RunTwo(h, replicaCount, s, a, b);
    assert [a, b, c][..2] == [a, b];
  }

  // ----- Put -----

  function ChunkSteps(n: nat): seq<Step> {
    seq(n, i => PutChunk)
  }

  lemma {:induction false} ChunksRun(h: Hasher, replicaCount: int, s: State, n: nat)
    requires replicaCount >= 1 && s.writer.Writing? && s.writer.written + n <= |s.writer.prep.chunks|
    ensures Run(h, replicaCount, s, ChunkSteps(n)) == s.(writer := s.writer.(written := s.writer.written + n))
  {
    if n > 0 {
      ChunksRun(h, replicaCount, s, n - 1);
      assert ChunkSteps(n)[..n - 1] == ChunkSteps(n - 1);
    }
  }

  function PutSteps(key: string, data: Bytes, chunks: nat, now: Time): seq<Step> {
    [PutStage(key, data), PutPlan, PutPrepare] + ChunkSteps(chunks) + [PutPublish(now), PutEnqueue(now)]
  }

  lemma PutStarts(h: Hasher, replicaCount: int, s: State, key: string, data: Bytes)
    requires replicaCount >= 1 && s.writer.Idle? && WriteOf(h, s.meta, replicaCount, key, data).Ok?
    ensures Run(h, replicaCount, s, [PutStage(key, data), PutPlan, PutPrepare]) ==
            s.(writer := Writing(WriteOf(h, s.meta, replicaCount, key, data).value, data, 0))
  {
    hide Partition, Meta.HealthyNodes, PlanOf;
    RunThree(h, replicaCount, s, PutStage(key, data), PutPlan, PutPrepare);
  }

  lemma PutEnds(h: Hasher, replicaCount: int, s: State, now: Time)
    requires replicaCount >= 1 && s.writer.Writing? && s.writer.written == |s.writer.prep.chunks|
    ensures var f := FileOf(s.meta, s.writer.prep, now);
      var tasks := TasksOf(f, now);
      Run(h, replicaCount, s, [PutPublish(now), PutEnqueue(now)]) ==
        s.(meta := s.meta.Store(f), backlog := if tasks.Ok? then s.backlog.Enqueue(tasks.value) else s.backlog,
           writer := Idle, log := s.log + [Committed(f.key, f.version, s.writer.data)])
  {
    hide FileOf, TasksOf, Backlog.Enqueue, Meta.Store;
    RunTwo(h, replicaCount, s, PutPublish(now), PutEnqueue(now));
  }

  /** A Put whose writes succeed is the run of its steps. */
  lemma PutIsRun(h: Hasher, replicaCount: int, s: State, key: string, data: Bytes, now: Time)
    requires replicaCount >= 1 && s.writer.Idle? && WriteOf(h, s.meta, replicaCount, key, data).Ok?
    ensures var w := WriteOf(h, s.meta, replicaCount, key, data).value;
      var f := FileOf(s.meta, w, now);
      var tasks := TasksOf(f, now);
      Run(h, replicaCount, s, PutSteps(key, data, |w.chunks|, now)) ==
        s.(meta := s.meta.Store(f), backlog := if tasks.Ok? then s.backlog.Enqueue(tasks.value) else s.backlog,
           log := s.log + [Committed(key, f.version, data)])
  {
    hide Run, FileDescribes, FileOk, Partition, Meta.HealthyNodes, WriteOf, FileOf, TasksOf, Backlog.Enqueue,
         Meta.Store, ChunkSteps, Meta.NextVersion;
    var w := WriteOf(h, s.meta, replicaCount, key, data).value;
    var start, chunks := [PutStage(key, data), PutPlan, PutPrepare], ChunkSteps(|w.chunks|);
    WriteShape(h, s.meta, replicaCount, key, data, now);
    PutStarts(h, replicaCount, s, key, data);
    var s1 := s.(writer := Writing(w, data, 0));
    ChunksRun(h, replicaCount, s1, |w.chunks|);
    var s2 := s.(writer := Writing(w, data, |w.chunks|));
    RunAppend(h, replicaCount, s, start, chunks);
    RunAppend(h, replicaCount, s, start + chunks, [PutPublish(now), PutEnqueue(now)]);
    assert Run(h, replicaCount, s, start + chunks) == s2;
    PutEnds(h, replicaCount, s2, now);
  }

  /** A Put that finds no healthy node, or fails while it writes, is a run that changes nothing. */
  lemma PutFailsIsRun(h: Hasher, replicaCount: int, s: State, key: string, data: Bytes, written: nat)
    requires replicaCount >= 1 && s.writer.Idle?
    ensures WriteOf(h, s.meta, replicaCount, key, data).Err? ==>
      Run(h, replicaCount, s, [PutStage(key, data), PutPlan]) == s
    ensures WriteOf(h, s.meta, replicaCount, key, data).Ok?
            && written <= |WriteOf(h, s.meta, replicaCount, key, data).value.chunks| ==>
      Run(h, replicaCount, s, [PutStage(key, data), PutPlan, PutPrepare] + ChunkSteps(written) + [PutFail]) == s
  {
    hide Run, WriteOf, ChunkSteps;
    if WriteOf(h, s.meta, replicaCount, key, data).Err? {
      PutUnplanned(h, replicaCount, s, key, data);
    } else if written <= |WriteOf(h, s.meta, replicaCount, key, data).value.chunks| {
      PutAborted(h, replicaCount, s, key, data, written);
    }
  }

  lemma PutAborted(h: Hasher, replicaCount: int, s: State, key: string, data: Bytes, written: nat)
    requires replicaCount >= 1 && s.writer.Idle? && WriteOf(h, s.meta, replicaCount, key, data).Ok?
    requires written <= |WriteOf(h, s.meta, replicaCount, key, data).value.chunks|
    ensures Run(h, replicaCount, s, [PutStage(key, data), PutPlan, PutPrepare] + ChunkSteps(written) + [PutFail]) == s
  {
    hide Run, WriteOf, ChunkSteps, Next;
    var start, chunks := [PutStage(key, data), PutPlan, PutPrepare], ChunkSteps(written);
    var w := WriteOf(h, s.meta, replicaCount, key, data).value;
    PutStarts(h, replicaCount, s, key, data);
    ChunksRun(h, replicaCount, s.(writer := Writing(w, data, 0)), written);
    var s1 := s.(writer := Writing(w, data, written));
    RunAppend(h, replicaCount, s, start, chunks);
    RunAppend(h, replicaCount, s, start + chunks, [PutFail]);
    RunOne(h, replicaCount, s1, PutFail);
    WriterFails(h, replicaCount, s1);
  }

  lemma WriterFails(h: Hasher, replicaCount: int, s: State)
    requires replicaCount >= 1 && s.writer.Writing?
    ensures Next(h, replicaCount, s, PutFail) == s.(writer := Idle)
  {
  }

  lemma PutUnplanned(h: Hasher, replicaCount: int, s: State, key: string, data: Bytes)
    requires replicaCount >= 1 && s.writer.Idle? && WriteOf(h, s.meta, replicaCount, key, data).Err?
    ensures Run(h, replicaCount, s, [PutStage(key, data), PutPlan]) == s
  {
    hide Partition, Meta.HealthyNodes, PlanOf;
    RunTwo(h, replicaCount, s, PutStage(key, data), PutPlan);
  }

  // ----- Delete, Get and WorkOnce -----

  lemma DeleteIsRun(h: Hasher, replicaCount: int, s: State, key: string, now: Time)
    requires replicaCount >= 1 && s.writer.Idle? && s.meta.Valid() && key in s.meta.files
    ensures Run(h, replicaCount, s, [DeleteLook(key), DeleteTombstone(now), DeleteDone]) ==
            s.(meta := s.meta.Tombstone(key, now).0, log := s.log + [Removed(key, s.meta.Version(key) + 1)])
  {
    RunThree(h, replicaCount, s, DeleteLook(key), DeleteTombstone(now), DeleteDone);
  }

  function MarkSteps(key: string, replicas: seq<ReplicaMetadata>, failures: seq<Error>, now: Time): (steps: seq<Step>)
    requires |failures| <= |replicas|
    ensures |steps| == |failures|
  {
    seq(|failures|, i requires 0 <= i < |failures| => Mark(key, replicas[i].nodeId, Demotion(failures[i]), now))
  }

  lemma {:induction false} MarksRun(
      h: Hasher, replicaCount: int, s: State, key: string, replicas: seq<ReplicaMetadata>, failures: seq<Error>,
      now: Time)
    requires replicaCount >= 1 && |failures| <= |replicas|
    ensures Run(h, replicaCount, s, MarkSteps(key, replicas, failures, now)) ==
            s.(meta := Demoted(s.meta, key, replicas, failures, now))
    decreases |failures|
  {
    hide Meta.MarkReplica;
    if failures != [] {
      var n := |failures| - 1;
      MarksRun(h, replicaCount, s, key, replicas, failures[..n], now);
      assert MarkSteps(key, replicas, failures, now)[..n] == MarkSteps(key, replicas, failures[..n], now);
    }
  }

  /** A Get that fails over is the run that takes its plan, demotes the replicas it could not use, and ends. */
  lemma GetIsRun(h: Hasher, replicaCount: int, s: State, reader: nat, key: string, failures: seq<Error>, now: Time)
    requires replicaCount >= 1 && reader !in s.readers && ReadCandidates(s.meta, key).Ok?
    requires |failures| <= |ReadCandidates(s.meta, key).value.replicas|
    ensures var plan := ReadCandidates(s.meta, key).value;
      var steps := [Cluster.ReadStart(reader, key)] + MarkSteps(key, plan.replicas, failures, now)
        + [Cluster.ReadEnd(reader)];
      Run(h, replicaCount, s, steps) == s.(meta := Demoted(s.meta, key, plan.replicas, failures, now))
  {
    hide Placement.ReadCandidates, Demoted, MarkSteps, Run;
    var plan := ReadCandidates(s.meta, key).value;
    var marks := MarkSteps(key, plan.replicas, failures, now);
    var first, last := Cluster.ReadStart(reader, key), Cluster.ReadEnd(reader);
    ReadRuns(h, replicaCount, s, reader, key);
    var s1 := s.(readers := s.readers[reader := plan]);
    RunAppend(h, replicaCount, s, [first], marks);
    MarksRun(h, replicaCount, s1, key, plan.replicas, failures, now);
    RunAppend(h, replicaCount, s, [first] + marks, [last]);
    ReadRuns(h, replicaCount, s1.(meta := Demoted(s.meta, key, plan.replicas, failures, now)), reader, key);
    assert s1.readers - {reader} == s.readers;
  }

  lemma ReadRuns(h: Hasher, replicaCount: int, s: State, reader: nat, key: string)
    requires replicaCount >= 1
    ensures ReadCandidates(s.meta, key).Ok? ==>
      Run(h, replicaCount, s, [Cluster.ReadStart(reader, key)]) ==
        s.(readers := s.readers[reader := ReadCandidates(s.meta, key).value])
    ensures Run(h, replicaCount, s, [Cluster.ReadEnd(reader)]) == s.(readers := s.readers - {reader})
  {
    hide Placement.ReadCandidates;
    RunOne(h, replicaCount, s, Cluster.ReadStart(reader, key));
    RunOne(h, replicaCount, s, Cluster.ReadEnd(reader));
  }

  /** One round of the worker is the run that starts its task, ends it and marks the target. */
  lemma WorkIsRun(
      h: Hasher, replicaCount: int, s: State, t: ReplicationTask, now: Time, later: Time, text: Error -> string,
      copied: Result<()>)
    requires replicaCount >= 1
    ensures var end := if copied.Ok? then FinishTask(t.id, later) else FailTask(t.id, text(copied.error), later);
      var state := if copied.Ok? then ReplicaHealthy else ReplicaMissing;
      Run(h, replicaCount, s, [StartTask(t.id, now), end, Mark(t.key, t.target, state, later)]) ==
        s.(backlog := Worked(s.backlog, t, now, later, text, copied).0,
           meta := s.meta.MarkReplica(t.key, t.target, state, later).0)
  {
    hide Meta.MarkReplica, Backlog.MarkRunning, Backlog.MarkDone, Backlog.MarkFailed;
    var end := if copied.Ok? then FinishTask(t.id, later) else FailTask(t.id, text(copied.error), later);
    var state := if copied.Ok? then ReplicaHealthy else ReplicaMissing;
    RunThree(h, replicaCount, s, StartTask(t.id, now), end, Mark(t.key, t.target, state, later));
  }

  // ----- PlanRepair -----

  function AddSteps(key: string, ids: seq<string>, now: Time): (steps: seq<Step>)
    ensures |steps| == |ids|
  {
    seq(|ids|, i requires 0 <= i < |ids| => RepairAdd(key, ids[i], now))
  }

  lemma {:induction false} AddsRun(h: Hasher, replicaCount: int, s: State, key: string, ids: seq<string>, now: Time)
    requires replicaCount >= 1 && key in s.meta.files
    ensures Run(h, replicaCount, s, AddSteps(key, ids, now)) == s.(meta := PendingIn(s.meta, key, ids, now))
    decreases |ids|
  {
    hide Meta.AddReplica, PendingIn;
    if ids == [] {
      PendingNone(s.meta, key, now);
    } else {
      var n := |ids| - 1;
      AddsRun(h, replicaCount, s, key, ids[..n], now);
      assert AddSteps(key, ids, now)[..n] == AddSteps(key, ids[..n], now);
      assert ids == ids[..n] + [ids[n]];
      PendingMore(s.meta, key, ids[..n], ids[n], now);
    }
  }

  ghost predicate OnlyAdds(steps: seq<Step>) {
    forall i :: 0 <= i < |steps| ==> steps[i].RepairAdd?
  }

  /** The steps of repair passes: they list, add replicas and enqueue. */
  ghost predicate OnlyRepairs(steps: seq<Step>) {
    forall i :: 0 <= i < |steps| ==> steps[i].RepairList? || steps[i].RepairAdd? || steps[i].RepairEnqueue?
  }

  /** Extending the records of the given files is a run, whatever order the files are taken in. */
  lemma {:induction false} RepairsRun(h: Hasher, replicaCount: int, s: State, keys: set<string>, now: Time)
    requires replicaCount >= 1 && keys <= s.meta.files.Keys
    ensures exists steps :: OnlyAdds(steps)
                            && Run(h, replicaCount, s, steps) == s.(meta := Repaired(s.meta, keys, replicaCount, now))
    decreases keys
  {
    hide Repaired, PendingIn, NewTargets, Meta.HealthyNodes, Next, Repairable;
    if keys == {} {
      NothingRepaired(s.meta, replicaCount, now);
      assert OnlyAdds([]) && Run(h, replicaCount, s, []) == s.(meta := Repaired(s.meta, keys, replicaCount, now));
    } else {
      var key :| key in keys;
      var others := keys - {key};
      RepairsRun(h, replicaCount, s, others, now);
      var steps :| OnlyAdds(steps) && Run(h, replicaCount, s, steps) ==
        s.(meta := Repaired(s.meta, others, replicaCount, now));
      assert others + {key} == keys;
      RepairKey(s.meta, others, key, replicaCount, now);
      var f := s.meta.files[key];
      if Repairable(f) {
        var ids := NewTargets(f, s.meta.HealthyNodes(), Room(f, replicaCount));
        var s1 := s.(meta := Repaired(s.meta, others, replicaCount, now));
        AddsRun(h, replicaCount, s1, key, ids, now);
        RunAppend(h, replicaCount, s, steps, AddSteps(key, ids, now));
        assert OnlyAdds(steps + AddSteps(key, ids, now));
        assert Run(h, replicaCount, s, steps + AddSteps(key, ids, now)) ==
               s.(meta := Repaired(s.meta, keys, replicaCount, now));
      }
    }
  }

  /** Every task of a repair pass copies a listed live file from its least healthy replica to another node. */
  lemma RepairTaskListed(m: Meta, replicaCount: int, now: Time, ts: seq<ReplicationTask>, t: ReplicationTask)
    requires m.Valid() && RepairTasks(m, m.files.Keys, replicaCount, now, ts) && t in ts
    ensures RepairTask(m.ListFiles(), t)
  {
    hide NewTargets, Meta.HealthyNodes, CopyTask, SourceOf, FileOk;
    var nodes := m.HealthyNodes();
    var k :| k in m.files && Repairable(m.files[k]) && IsRepairTask(m.files[k], nodes, replicaCount, now, t);
    var f := m.files[k];
    assert f in Kept(m.files, AnyFile) by { assert AnyFile(m.files[k]); }
    assert f in Elements(m.ListFiles());
    CreatedNow(f, SourceOf(f), t.target, now);
    TargetIsOther(m, f, replicaCount, t.target);
  }

  lemma CreatedNow(f: FileMetadata, source: string, target: string, now: Time)
    ensures CopyTask(f, source, target, now).createdAt == now
  {
  }

  lemma TargetIsOther(m: Meta, f: FileMetadata, replicaCount: int, n: string)
    requires m.Valid() && FileOk(f) && Repairable(f) && n in RepairTargets(f, m.HealthyNodes(), replicaCount)
    ensures n != SourceOf(f)
  {
    hide NewTargets, Meta.HealthyNodes, SourceOf;
    HealthyNodesDistinct(m);
    NewTargetsCount(f, m.HealthyNodes(), Room(f, replicaCount));
    SourceIsHealthy(f);
  }

  lemma RepairStarts(h: Hasher, replicaCount: int, s: State, repair: nat)
    requires replicaCount >= 1
    ensures Run(h, replicaCount, s, [RepairList(repair)]) == s.(repairs := s.repairs[repair := s.meta.ListFiles()])
  {
    hide Meta.ListFiles;
    RunOne(h, replicaCount, s, RepairList(repair));
  }

  lemma RepairEnds(h: Hasher, replicaCount: int, s: State, repair: nat, ts: seq<ReplicationTask>)
    requires replicaCount >= 1 && repair in s.repairs && forall t <- ts :: RepairTask(s.repairs[repair], t)
    ensures Run(h, replicaCount, s, [RepairEnqueue(repair, ts)]) ==
            s.(backlog := s.backlog.Enqueue(ts), repairs := s.repairs - {repair})
  {
    hide Backlog.Enqueue, RepairTask;
    RunOne(h, replicaCount, s, RepairEnqueue(repair, ts));
  }

  /** An undisturbed PlanRepair is a run. */
  lemma RepairIsRun(h: Hasher, replicaCount: int, s: State, repair: nat, now: Time, ts: seq<ReplicationTask>)
    requires replicaCount >= 1 && s.meta.Valid() && repair !in s.repairs
    requires RepairTasks(s.meta, s.meta.files.Keys, replicaCount, now, ts)
    ensures exists steps ::
      OnlyRepairs(steps) && Run(h, replicaCount, s, steps) ==
        s.(meta := Repaired(s.meta, s.meta.files.Keys, replicaCount, now), backlog := s.backlog.Enqueue(ts))
  {
    hide Repaired, RepairTask, RepairTasks, Meta.ListFiles, Meta.Valid, Backlog.Enqueue, Run;
    var (m, keys) := (s.meta, s.meta.files.Keys);
    RepairStarts(h, replicaCount, s, repair);
    var s1 := s.(repairs := s.repairs[repair := m.ListFiles()]);
    RepairsRun(h, replicaCount, s1, keys, now);
    var adds :| OnlyAdds(adds) && Run(h, replicaCount, s1, adds) == s1.(meta := Repaired(m, keys, replicaCount, now));
    var s2 := s1.(meta := Repaired(m, keys, replicaCount, now));
    forall t | t in ts ensures RepairTask(m.ListFiles(), t) { RepairTaskListed(m, replicaCount, now, ts, t); }
    RepairEnds(h, replicaCount, s2, repair, ts);
    RunAppend(h, replicaCount, s, [RepairList(repair)], adds);
    RunAppend(h, replicaCount, s, [RepairList(repair)] + adds, [RepairEnqueue(repair, ts)]);
    assert s2.repairs - {repair} == s.repairs;
    assert OnlyRepairs([RepairList(repair)] + adds + [RepairEnqueue(repair, ts)]);
  }
}

/** Attempts count starts: what a Put or a repair pass enqueues begins at none, and only a start adds one. */
module Attempts {
  import opened Types
  import opened Metadata
  import opened Queue
  import opened Placement
  import opened Cluster
  import Lifecycle

  /** How often the steps started the entry under this ID while it was queued. */
  ghost function Starts(h: Hasher, replicaCount: int, steps: seq<Step>, id: string): nat
    requires replicaCount >= 1
  {
    if steps == [] then 0
    else
      var (before, last) := (steps[..|steps| - 1], steps[|steps| - 1]);
      Starts(h, replicaCount, before, id)
      + (if last.StartTask? && last.id == id && id in Run(h, replicaCount, INIT, before).backlog.tasks then 1 else 0)
  }

  /** What one step does to the entry under an ID: no step removes it, and only its start counts. */
  ghost predicate CountsStart(b: Backlog, b': Backlog, id: string, started: bool) {
    && (id in b.tasks ==> id in b'.tasks && b'.tasks[id].attempts == b.tasks[id].attempts + (if started then 1 else 0))
    && (id !in b.tasks && id in b'.tasks ==> b'.tasks[id].attempts == 0)
  }

  lemma EnqueueCounts(b: Backlog, ts: seq<ReplicationTask>, id: string)
    requires forall t <- ts :: t.attempts == 0
    ensures CountsStart(b, b.Enqueue(ts), id, false)
  {
    hide Backlog.Enqueue;
    EnqueueKeeps(b, ts);
    if id !in b.tasks && id in b.Enqueue(ts).tasks {
      var i: nat :| FirstWith(ts, i, id) && b.Enqueue(ts).tasks[id] == ts[i];
      assert ts[i] in ts;
    }
  }

  lemma QueueCounts(b: Backlog, id: string, other: string, cause: string, now: Time)
    ensures CountsStart(b, b, id, false)
    ensures CountsStart(b, b.MarkRunning(other, now).0, id, other == id)
    ensures CountsStart(b, b.MarkDone(other, now).0, id, false)
    ensures CountsStart(b, b.MarkFailed(other, cause, now).0, id, false)
  {
  }

  lemma SweepCounts(b: Backlog, id: string, now: Time)
    ensures CountsStart(b, b.RequeueExpiredRunning(now), id, false)
    ensures CountsStart(b, b.Restore(now), id, false)
  {
  }

  /** The copies of a published file have not been tried. */
  lemma PutUntried(h: Hasher, s: State, now: Time)
    requires Inv(h, s) && s.writer.Published? && TasksOf(s.writer.file, now).Ok?
    ensures forall t <- TasksOf(s.writer.file, now).value :: t.attempts == 0 && t.state == TaskPending
  {
    hide LiveOk, TasksOk, ReadersOk, RepairsOk, LogOrdered, VersionsMatch, Meta.Valid, Backlog.Valid, TasksOf;
    var f := s.writer.file;
    forall t | t in TasksOf(f, now).value ensures t.attempts == 0 && t.state == TaskPending { TasksOfExact(f, now, t); }
  }

  lemma RepairUntried(listing: seq<FileMetadata>, t: ReplicationTask)
    requires RepairTask(listing, t)
    ensures t.attempts == 0 && t.state == TaskPending
  {
    hide SourceOf, CopyTask, Naming.TaskId;
    var f :| f in listing && !f.deleted && SourceOf(f) != t.target
      && t == CopyTask(f, SourceOf(f), t.target, t.createdAt);
    CopyTaskIsCopy(f, SourceOf(f), t.target, t.createdAt, t);
  }

  /** What is enqueued is what the bounds on the queue assume of it. */
  lemma EnqueuedFresh(h: Hasher, s: State, now: Time, listing: seq<FileMetadata>, t: ReplicationTask)
    requires Inv(h, s)
    requires RepairTask(listing, t)
             || (s.writer.Published? && TasksOf(s.writer.file, now).Ok? && t in TasksOf(s.writer.file, now).value)
    ensures Lifecycle.Fresh(t)
  {
    hide Inv, TasksOf, RepairTask;
    if RepairTask(listing, t) { RepairUntried(listing, t); } else { PutUntried(h, s, now); }
  }

  lemma StepCounts(h: Hasher, replicaCount: int, s: State, step: Step, id: string)
    requires replicaCount >= 1 && Inv(h, s)
    ensures CountsStart(s.backlog, Next(h, replicaCount, s, step).backlog, id, step.StartTask? && step.id == id)
  {
    hide Inv, CountsStart, TasksOf, PlanOf, FileOf, Placement.ReadCandidates, RepairTask, Backlog.Enqueue,
         Backlog.MarkRunning, Backlog.MarkDone, Backlog.MarkFailed, Backlog.RequeueExpiredRunning, Backlog.Restore,
         Meta.HealthyNodes, Meta.ListFiles;
    QueueCounts(s.backlog, id, "", "", 0);
    match step
    case PutEnqueue(now) =>
      if s.writer.Published? && TasksOf(s.writer.file, now).Ok? {
        PutUntried(h, s, now);
        EnqueueCounts(s.backlog, TasksOf(s.writer.file, now).value, id);
      }
    case RepairEnqueue(repair, tasks) =>
      if repair in s.repairs && forall t <- tasks :: RepairTask(s.repairs[repair], t) {
        forall t | t in tasks ensures t.attempts == 0 { RepairUntried(s.repairs[repair], t); }
        EnqueueCounts(s.backlog, tasks, id);
      }
    case StartTask(other, now) => QueueCounts(s.backlog, id, other, "", now);
    case FinishTask(other, now) => QueueCounts(s.backlog, id, other, "", now);
    case FailTask(other, cause, now) => QueueCounts(s.backlog, id, other, cause, now);
    case Sweep(now) => SweepCounts(s.backlog, id, now);
    case Restart(now) => SweepCounts(s.backlog, id, now);
    case _ =>
  }

  lemma OneMoreStep(h: Hasher, replicaCount: int, steps: seq<Step>, step: Step)
    requires replicaCount >= 1
    ensures Run(h, replicaCount, INIT, steps + [step]) ==
            Next(h, replicaCount, Run(h, replicaCount, INIT, steps), step)
  {
    hide Next;
    assert (steps + [step])[..|steps|] == steps;
  }

  /** In every run the attempts of an entry are the number of its starts. */
  lemma {:induction false} AttemptsCountStarts(h: Hasher, replicaCount: int, steps: seq<Step>, id: string)
    requires replicaCount >= 1
    ensures var b := Run(h, replicaCount, INIT, steps).backlog;
      && (id in b.tasks ==> b.tasks[id].attempts == Starts(h, replicaCount, steps, id))
      && (id !in b.tasks ==> Starts(h, replicaCount, steps, id) == 0)
  {
    hide Next;
    if steps != [] {
      var (before, last) := (steps[..|steps| - 1], steps[|steps| - 1]);
      AttemptsCountStarts(h, replicaCount, before, id);
      RunInv(h, replicaCount, before);
      StepCounts(h, replicaCount, Run(h, replicaCount, INIT, before), last, id);
    }
  }

  /**
   * An entry that a Put or a repair pass enqueued dies of a failure exactly if it had been started five times by
   * then.
   */
  lemma DeadAfterFifthStart(h: Hasher, replicaCount: int, steps: seq<Step>, id: string, cause: string, now: Time)
    requires replicaCount >= 1 && id in Run(h, replicaCount, INIT, steps).backlog.tasks
    ensures var t := Run(h, replicaCount, INIT, steps + [FailTask(id, cause, now)]).backlog.tasks[id];
      && (t.state == TaskDead <==> Starts(h, replicaCount, steps, id) >= 5)
      && (t.state == TaskPending <==> Starts(h, replicaCount, steps, id) < 5)
  {
    hide Starts, Backlog.MarkFailed, Run;
    var s := Run(h, replicaCount, INIT, steps);
    AttemptsCountStarts(h, replicaCount, steps, id);
    FailExact(s.backlog, id, cause, now);
    OneMoreStep(h, replicaCount, steps, FailTask(id, cause, now));
  }
}

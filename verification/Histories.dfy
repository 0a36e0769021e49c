/**
 * Each whole operation of the service, with what it does to the storage nodes, is a history of the joint machine. The
 * hypotheses about the contents after the operation are what the contracts of the service methods promise.
 */
module Histories {
  import opened Types
  import opened Chunking
  import opened Objects
  import opened Metadata
  import opened Queue
  import opened Placement
  import opened Repair
  import opened Cluster
  import opened Service
  import opened Refinement
  import opened Durability

  lemma {:induction false} HistoryAppend(h: Hasher, replicaCount: int, w: World, a: seq<Move>, b: seq<Move>)
    requires replicaCount >= 1
    ensures History(h, replicaCount, w, a + b) == History(h, replicaCount, History(h, replicaCount, w, a), b)
    decreases |b|
  {
    hide Move1;
    if b == [] {
      assert a + b == a;
    } else {
      assert (a + b)[..|a + b| - 1] == a + b[..|b| - 1];
      HistoryAppend(h, replicaCount, w, a, b[..|b| - 1]);
    }
  }

  lemma HistoryOne(h: Hasher, replicaCount: int, w: World, move: Move)
    requires replicaCount >= 1
    ensures History(h, replicaCount, w, [move]) == Move1(h, replicaCount, w, move)
  {
    hide Move1;
    assert [move][..0] == [];
  }

  function Controls(steps: seq<Step>): (moves: seq<Move>)
    ensures |moves| == |steps|
  {
    seq(|steps|, i requires 0 <= i < |steps| => Control(steps[i]))
  }

  ghost predicate AllBenign(steps: seq<Step>) {
    forall i :: 0 <= i < |steps| ==> Benign(steps[i])
  }

  /** A run of control steps is a history that leaves the nodes alone. */
  lemma {:induction false} ControlsRun(h: Hasher, replicaCount: int, w: World, steps: seq<Step>)
    requires replicaCount >= 1 && AllBenign(steps)
    ensures History(h, replicaCount, w, Controls(steps)) == w.(ctl := Run(h, replicaCount, w.ctl, steps))
    decreases |steps|
  {
    hide Next, Benign;
    if steps != [] {
      var n := |steps| - 1;
      ControlsRun(h, replicaCount, w, steps[..n]);
      assert Controls(steps)[..n] == Controls(steps[..n]);
      assert Controls(steps)[n] == Control(steps[n]);
    }
  }

  // ----- Put -----

  function WriteMoves(n: nat): seq<Move> {
    seq(n, i => WriteChunk)
  }

  /** The contents once the first n chunks of a Put are on the primary. */
  ghost function WrittenContents(c: Contents, prep: PreparedWrite, data: Bytes, n: nat): Contents {
    if n == 0 then c
    else WrittenContents(c, prep, data,
      n - 1)[ChunkPlace(prep.primary.id, prep.key, prep.version, n - 1) := Slice(data, n - 1)]
  }

  lemma {:induction false} WritesRun(h: Hasher, replicaCount: int, w: World, n: nat)
    requires replicaCount >= 1 && w.ctl.writer.Writing? && w.ctl.writer.written == 0 && n <= |w.ctl.writer.prep.chunks|
    ensures History(h, replicaCount, w, WriteMoves(n)) ==
            w.(ctl := w.ctl.(writer := w.ctl.writer.(written := n)),
               contents := WrittenContents(w.contents, w.ctl.writer.prep, w.ctl.writer.data, n))
  {
    hide ChunkPlace, Slice;
    if n > 0 {
      WritesRun(h, replicaCount, w, n - 1);
      assert WriteMoves(n)[..n - 1] == WriteMoves(n - 1);
    }
  }

  lemma {:induction false} WrittenElsewhere(c: Contents, prep: PreparedWrite, data: Bytes, n: nat, p: Place)
    requires forall i: nat :: i < n ==> p != ChunkPlace(prep.primary.id, prep.key, prep.version, i)
    ensures Lookup(WrittenContents(c, prep, data, n), p) == Lookup(c, p)
  {
    hide ChunkPlace, Slice;
    if n > 0 { WrittenElsewhere(c, prep, data, n - 1, p); }
  }

  lemma {:induction false} WrittenHere(c: Contents, prep: PreparedWrite, data: Bytes, n: nat, i: nat)
    requires i < n
    ensures Lookup(WrittenContents(c, prep, data, n), ChunkPlace(prep.primary.id, prep.key, prep.version, i)) ==
      Ok(Slice(data, i))
  {
    hide ChunkPlace, Slice;
    if i < n - 1 {
      WrittenHere(c, prep, data, n - 1, i);
      PlacesDiffer(prep.primary.id, prep.key, prep.version, i, prep.primary.id, prep.key, prep.version, n - 1);
    }
  }

  lemma SameLookups(a: Contents, b: Contents)
    requires forall p :: Lookup(a, p) == Lookup(b, p)
    ensures a == b
  {
    forall p ensures p in a <==> p in b { assert Lookup(a, p) == Lookup(b, p); }
    forall p | p in a ensures a[p] == b[p] { assert Lookup(a, p) == Lookup(b, p); }
  }

  /** Contents that hold the file on the primary and are otherwise as before are those the chunk writes produce. */
  lemma WrittenIs(h: Hasher, c: Contents, after: Contents, prep: PreparedWrite, data: Bytes)
    requires prep.chunks == Partition(h, data)
    requires SameOutside(c, after, Places(prep.primary.id, prep.key, prep.version, prep.chunks))
    requires Holds(after, prep.primary.id, prep.key, prep.version, data)
    ensures WrittenContents(c, prep, data, |prep.chunks|) == after
  {
    hide ChunkPlace, Slice, WrittenContents;
    var n := |prep.chunks|;
    forall p ensures Lookup(WrittenContents(c, prep, data, n), p) == Lookup(after, p) {
      if i: nat :| i < n && p == ChunkPlace(prep.primary.id, prep.key, prep.version, i) {
        WrittenHere(c, prep, data, n, i);
      } else {
        WrittenElsewhere(c, prep, data, n, p);
        NotAPlace(h, prep, data, p);
      }
    }
    SameLookups(WrittenContents(c, prep, data, n), after);
  }

  lemma NotAPlace(h: Hasher, prep: PreparedWrite, data: Bytes, p: Place)
    requires prep.chunks == Partition(h, data)
    requires forall i: nat :: i < |prep.chunks| ==> p != ChunkPlace(prep.primary.id, prep.key, prep.version, i)
    ensures p !in Places(prep.primary.id, prep.key, prep.version, prep.chunks)
  {
    hide ChunkPlace, Slice;
    forall j | 0 <= j < |prep.chunks|
      ensures p != ChunkPlace(prep.primary.id, prep.key, prep.version, prep.chunks[j].index)
    {
      assert prep.chunks[j] == ChunkAt(h, data, j);
    }
  }

  lemma BenignPut(key: string, data: Bytes, now: Time)
    ensures AllBenign([PutStage(key, data), PutPlan, PutPrepare]) && AllBenign([PutPublish(now), PutEnqueue(now)])
    ensures AllBenign([PutPublish(now)]) && AllBenign([PutStage(key, data), PutPlan])
  {
  }

  /** Staging, planning, preparing and writing every chunk. */
  lemma PutWrites(
      h: Hasher, replicaCount: int, w: World, key: string, data: Bytes, written: Contents)
    returns (moves: seq<Move>)
    requires replicaCount >= 1 && w.ctl.writer.Idle? && WriteOf(h, w.ctl.meta, replicaCount, key, data).Ok?
    requires var prep := WriteOf(h, w.ctl.meta, replicaCount, key, data).value;
      && SameOutside(w.contents, written, Places(prep.primary.id, key, prep.version, prep.chunks))
      && Holds(written, prep.primary.id, key, prep.version, data)
    ensures var prep := WriteOf(h, w.ctl.meta, replicaCount, key, data).value;
      History(h, replicaCount, w, moves) ==
        w.(ctl := w.ctl.(writer := Writing(prep, data, |prep.chunks|)), contents := written)
  {
    hide History, Run, WriteOf, Partition, Places, Holds, SameOutside, AllBenign, FileOf, TasksOf, WrittenContents,
         FileOk, FileDescribes;
    var prep := WriteOf(h, w.ctl.meta, replicaCount, key, data).value;
    WriteShape(h, w.ctl.meta, replicaCount, key, data, 0);
    var start := [PutStage(key, data), PutPlan, PutPrepare];
    BenignPut(key, data, 0);
    ControlsRun(h, replicaCount, w, start);
    PutStarts(h, replicaCount, w.ctl, key, data);
    var w1 := w.(ctl := w.ctl.(writer := Writing(prep, data, 0)));
    WritesRun(h, replicaCount, w1, |prep.chunks|);
    WrittenIs(h, w.contents, written, prep, data);
    HistoryAppend(h, replicaCount, w, Controls(start), WriteMoves(|prep.chunks|));
    moves := Controls(start) + WriteMoves(|prep.chunks|);
  }

  /** A Put that succeeds is a history. */
  lemma PutIsHistory(h: Hasher, replicaCount: int, w: World, key: string, data: Bytes, now: Time, after: Contents)
    requires replicaCount >= 1 && w.ctl.writer.Idle? && WriteOf(h, w.ctl.meta, replicaCount, key, data).Ok?
    requires var prep := WriteOf(h, w.ctl.meta, replicaCount, key, data).value;
      && SameOutside(w.contents, after, Places(prep.primary.id, key, prep.version, prep.chunks))
      && Holds(after, prep.primary.id, key, prep.version, data)
    ensures var f := FileOf(w.ctl.meta, WriteOf(h, w.ctl.meta, replicaCount, key, data).value, now);
      TasksOf(f, now).Ok? ==> exists moves ::
        History(h, replicaCount, w, moves) ==
          w.(ctl := w.ctl.(meta := w.ctl.meta.Store(f), backlog := w.ctl.backlog.Enqueue(TasksOf(f, now).value),
                           log := w.ctl.log + [Committed(key, f.version, data)]),
             contents := after)
  {
    hide History, Run, WriteOf, Partition, Places, Holds, SameOutside, AllBenign, FileOf, TasksOf, FileOk,
         FileDescribes, Meta.Store, Backlog.Enqueue;
    var prep := WriteOf(h, w.ctl.meta, replicaCount, key, data).value;
    var f := FileOf(w.ctl.meta, prep, now);
    var writes := PutWrites(h, replicaCount, w, key, data, after);
    WriteShape(h, w.ctl.meta, replicaCount, key, data, now);
    var w1 := w.(ctl := w.ctl.(writer := Writing(prep, data, |prep.chunks|)), contents := after);
    BenignPut(key, data, now);
    ControlsRun(h, replicaCount, w1, [PutPublish(now), PutEnqueue(now)]);
    PutEnds(h, replicaCount, w1.ctl, now);
    HistoryAppend(h, replicaCount, w, writes, Controls([PutPublish(now), PutEnqueue(now)]));
  }

  /** A Put that fails before it publishes is a history that at most touches the places it was to write. */
  lemma PutFailsIsHistory(h: Hasher, replicaCount: int, w: World, key: string, data: Bytes, after: Contents)
    requires replicaCount >= 1 && w.ctl.writer.Idle?
    requires var write := WriteOf(h, w.ctl.meta, replicaCount, key, data);
      if write.Err? then after == w.contents
      else SameOutside(w.contents, after, Places(write.value.primary.id, key, write.value.version, write.value.chunks))
    ensures exists moves :: History(h, replicaCount, w, moves) == w.(contents := after)
  {
    hide History, Run, WriteOf, Places, SameOutside, AllBenign, FileOf, TasksOf, FileOk, FileDescribes, Partition;
    BenignPut(key, data, 0);
    if WriteOf(h, w.ctl.meta, replicaCount, key, data).Err? {
      ControlsRun(h, replicaCount, w, [PutStage(key, data), PutPlan]);
      PutUnplanned(h, replicaCount, w.ctl, key, data);
    } else {
      var prep := WriteOf(h, w.ctl.meta, replicaCount, key, data).value;
      var start := [PutStage(key, data), PutPlan, PutPrepare];
      WriteShape(h, w.ctl.meta, replicaCount, key, data, 0);
      ControlsRun(h, replicaCount, w, start);
      PutStarts(h, replicaCount, w.ctl, key, data);
      var w1 := w.(ctl := w.ctl.(writer := Writing(prep, data, 0)));
      WriterFails(h, replicaCount, w1.ctl);
      HistoryOne(h, replicaCount, w1, AbortPut(after));
      HistoryAppend(h, replicaCount, w, Controls(start), [AbortPut(after)]);
    }
  }

  /** A Put whose commit is refused after publishing is a history that ends in that refusal. */
  lemma PutRefusedIsHistory(
      h: Hasher, replicaCount: int, w: World, key: string, data: Bytes, now: Time, after: Contents)
    requires replicaCount >= 1 && w.ctl.writer.Idle? && WriteOf(h, w.ctl.meta, replicaCount, key, data).Ok?
    requires var f := FileOf(w.ctl.meta, WriteOf(h, w.ctl.meta, replicaCount, key, data).value, now);
      Refusable(f) && WrittenThenRemoved(w.contents, after, f, data)
    ensures var f := FileOf(w.ctl.meta, WriteOf(h, w.ctl.meta, replicaCount, key, data).value, now);
      exists moves ::
        History(h, replicaCount, w, moves) ==
          w.(ctl := w.ctl.(meta := w.ctl.meta.Store(f), log := w.ctl.log + [Committed(key, f.version, data)]),
            contents := after)
  {
    hide History, Run, WriteOf, Partition, Places, Holds, SameOutside, AllBenign, FileOf, TasksOf, FileOk,
         FileDescribes, Meta.Store, Refusable, Move1, Next;
    var prep := WriteOf(h, w.ctl.meta, replicaCount, key, data).value;
    var f := FileOf(w.ctl.meta, prep, now);
    WriteShape(h, w.ctl.meta, replicaCount, key, data, now);
    var written: Contents, removed: set<Place> :|
      && SameOutside(w.contents, written, Places(f.primary, f.key, f.version, f.chunks))
      && Holds(written, f.primary, f.key, f.version, data)
      && removed <= Places(f.primary, f.key, f.version, f.chunks) && after == written - removed;
    var writes := PutWrites(h, replicaCount, w, key, data, written);
    var w1 := w.(ctl := w.ctl.(writer := Writing(prep, data, |prep.chunks|)), contents := written);
    BenignPut(key, data, now);
    ControlsRun(h, replicaCount, w1, [PutPublish(now)]);
    Publishes(h, replicaCount, w1.ctl, now);
    HistoryAppend(h, replicaCount, w, writes, Controls([PutPublish(now)]));
    var w2 := w1.(ctl := w.ctl.(meta := w.ctl.meta.Store(f), writer := Published(f),
                                log := w.ctl.log + [Committed(key, f.version, data)]));
    RefusedWorld(h, replicaCount, w2, removed);
    HistoryOne(h, replicaCount, w2, RefuseCommit(removed));
    HistoryAppend(h, replicaCount, w, writes + Controls([PutPublish(now)]), [RefuseCommit(removed)]);
  }

  lemma Publishes(h: Hasher, replicaCount: int, s: State, now: Time)
    requires replicaCount >= 1 && s.writer.Writing? && s.writer.written == |s.writer.prep.chunks|
    ensures var f := FileOf(s.meta, s.writer.prep, now);
      Run(h, replicaCount, s, [PutPublish(now)]) ==
        s.(meta := s.meta.Store(f), writer := Published(f), log := s.log + [Committed(f.key, f.version, s.writer.data)])
  {
    hide FileOf, Meta.Store;
    RunOne(h, replicaCount, s, PutPublish(now));
  }

  // ----- Get and PlanRepair -----

  lemma BenignMarks(reader: nat, key: string, replicas: seq<ReplicaMetadata>, failures: seq<Error>, now: Time)
    requires |failures| <= |replicas|
    ensures AllBenign([Cluster.ReadStart(reader, key)] + MarkSteps(key, replicas, failures, now)
      + [Cluster.ReadEnd(reader)])
  {
  }

  /** A Get leaves the nodes alone. */
  lemma GetIsHistory(h: Hasher, replicaCount: int, w: World, reader: nat, key: string, failures: seq<Error>, now: Time)
    requires replicaCount >= 1 && reader !in w.ctl.readers && ReadCandidates(w.ctl.meta, key).Ok?
    requires |failures| <= |ReadCandidates(w.ctl.meta, key).value.replicas|
    ensures var plan := ReadCandidates(w.ctl.meta, key).value;
      exists moves ::
        History(h, replicaCount, w, moves) ==
          w.(ctl := w.ctl.(meta := Demoted(w.ctl.meta, key, plan.replicas, failures, now)))
  {
    hide History, Run, Placement.ReadCandidates, AllBenign, Demoted, MarkSteps;
    var plan := ReadCandidates(w.ctl.meta, key).value;
    BenignMarks(reader, key, plan.replicas, failures, now);
    GetIsRun(h, replicaCount, w.ctl, reader, key, failures, now);
    ControlsRun(h, replicaCount, w,
                [Cluster.ReadStart(reader, key)] + MarkSteps(key, plan.replicas, failures, now)
                  + [Cluster.ReadEnd(reader)]);
  }

  lemma BenignRepairs(steps: seq<Step>)
    requires OnlyRepairs(steps)
    ensures AllBenign(steps)
  {
  }

  /** So does a repair pass. */
  lemma RepairIsHistory(h: Hasher, replicaCount: int, w: World, repair: nat, now: Time, ts: seq<ReplicationTask>)
    requires replicaCount >= 1 && w.ctl.meta.Valid() && repair !in w.ctl.repairs
    requires RepairTasks(w.ctl.meta, w.ctl.meta.files.Keys, replicaCount, now, ts)
    ensures exists moves ::
      History(h, replicaCount, w, moves) ==
        w.(ctl := w.ctl.(meta := Repaired(w.ctl.meta, w.ctl.meta.files.Keys, replicaCount, now),
                         backlog := w.ctl.backlog.Enqueue(ts)))
  {
    hide History, Run, Repaired, RepairTasks, Backlog.Enqueue, Meta.Valid, OnlyRepairs, AllBenign;
    RepairIsRun(h, replicaCount, w.ctl, repair, now, ts);
    var steps :| OnlyRepairs(steps) && Run(h, replicaCount, w.ctl, steps) ==
      w.ctl.(meta := Repaired(w.ctl.meta, w.ctl.meta.files.Keys, replicaCount, now),
        backlog := w.ctl.backlog.Enqueue(ts));
    BenignRepairs(steps);
    ControlsRun(h, replicaCount, w, steps);
  }

  // ----- WorkOnce -----

  /** One round of the worker, with what its copy did to the target. */
  lemma WorkIsHistory(
      h: Hasher, replicaCount: int, w: World, now: Time, later: Time, text: Error -> string, copied: Result<()>,
      after: Contents)
    requires replicaCount >= 1 && w.worker == Worker.Waiting && w.ctl.backlog.Valid()
      && w.ctl.backlog.Pending(now) != []
    requires CopyOutcome(h, w.contents, after, w.ctl.backlog.Pending(now)[0], copied.Ok?)
    ensures var t := w.ctl.backlog.Pending(now)[0];
      var state := if copied.Ok? then ReplicaHealthy else ReplicaMissing;
      exists moves ::
        History(h, replicaCount, w, moves) ==
          w.(ctl := w.ctl.(backlog := Worked(w.ctl.backlog, t, now, later, text, copied).0,
                           meta := w.ctl.meta.MarkReplica(t.key, t.target, state, later).0),
             contents := after)
  {
    hide History, Backlog.Pending, Backlog.Valid, CopyOutcome, Meta.MarkReplica, Worked, Move1;
    var t := w.ctl.backlog.Pending(now)[0];
    PendingIsQueued(w.ctl.backlog, now);
    StartedCopyOutcome(h, w.contents, after, t, Started(t, now), copied.Ok?, []);
    WorkStarts(h, replicaCount, w, now);
    HistoryOne(h, replicaCount, w, WorkStart(now));
    var w1 := w.(ctl := w.ctl.(backlog := w.ctl.backlog.MarkRunning(t.id, now).0), worker := Copying(Started(t, now)));
    if copied.Ok? {
      WorkEnds(h, replicaCount, w, t, now, later, text, copied, after);
      var w2 := w1.(contents := after, worker := Copied(Started(t, now)));
      HistoryOne(h, replicaCount, w1, WorkCopied(after));
      HistoryAppend(h, replicaCount, w, [WorkStart(now)], [WorkCopied(after)]);
      HistoryOne(h, replicaCount, w2, WorkFinish(later));
      HistoryAppend(h, replicaCount, w, [WorkStart(now)] + [WorkCopied(after)], [WorkFinish(later)]);
    } else {
      WorkFails(h, replicaCount, w, t, now, later, text, copied, after);
      HistoryOne(h, replicaCount, w1, WorkFailed(after, text(copied.error), later));
      HistoryAppend(h, replicaCount, w, [WorkStart(now)], [WorkFailed(after, text(copied.error), later)]);
    }
  }

  lemma WorkStarts(h: Hasher, replicaCount: int, w: World, now: Time)
    requires replicaCount >= 1 && w.worker == Worker.Waiting && w.ctl.backlog.Valid()
      && w.ctl.backlog.Pending(now) != []
    ensures var t := w.ctl.backlog.Pending(now)[0];
      Move1(h, replicaCount, w, WorkStart(now)) ==
        w.(ctl := w.ctl.(backlog := w.ctl.backlog.MarkRunning(t.id, now).0), worker := Copying(Started(t, now)))
  {
    hide Backlog.Pending, Backlog.Valid;
    PendingIsQueued(w.ctl.backlog, now);
  }

  lemma WorkEnds(
      h: Hasher, replicaCount: int, w: World, t: ReplicationTask, now: Time, later: Time, text: Error -> string,
      copied: Result<()>, after: Contents)
    requires replicaCount >= 1 && w.worker == Worker.Waiting && copied.Ok?
    requires CopyOutcome(h, w.contents, after, Started(t, now), true)
    ensures var w1 := w.(ctl := w.ctl.(backlog := w.ctl.backlog.MarkRunning(t.id, now).0),
      worker := Copying(Started(t, now)));
      var w2 := w1.(contents := after, worker := Copied(Started(t, now)));
      && Move1(h, replicaCount, w1, WorkCopied(after)) == w2
      && Move1(h, replicaCount, w2, WorkFinish(later)) ==
         w.(ctl := w.ctl.(backlog := Worked(w.ctl.backlog, t, now, later, text, copied).0,
                          meta := w.ctl.meta.MarkReplica(t.key, t.target, ReplicaHealthy, later).0),
            contents := after)
  {
    hide CopyOutcome, Meta.MarkReplica, Backlog.MarkRunning, Backlog.MarkDone, Backlog.MarkFailed;
  }

  lemma WorkFails(
      h: Hasher, replicaCount: int, w: World, t: ReplicationTask, now: Time, later: Time, text: Error -> string,
      copied: Result<()>, after: Contents)
    requires replicaCount >= 1 && w.worker == Worker.Waiting && copied.Err?
    requires CopyOutcome(h, w.contents, after, Started(t, now), false)
    ensures var w1 := w.(ctl := w.ctl.(backlog := w.ctl.backlog.MarkRunning(t.id, now).0),
      worker := Copying(Started(t, now)));
      Move1(h, replicaCount, w1, WorkFailed(after, text(copied.error), later)) ==
        w.(ctl := w.ctl.(backlog := Worked(w.ctl.backlog, t, now, later, text, copied).0,
                         meta := w.ctl.meta.MarkReplica(t.key, t.target, ReplicaMissing, later).0),
           contents := after)
  {
    hide CopyOutcome, Meta.MarkReplica, Backlog.MarkRunning, Backlog.MarkDone, Backlog.MarkFailed;
  }

  // ----- Delete -----

  /** Contents that are as after on the places of one node, and as before elsewhere. */
  ghost function Patched(before: Contents, after: Contents, places: set<Place>): Contents {
    (map p | p in after && p in places :: after[p]) + (map p | p in before && p !in places :: before[p])
  }

  lemma PatchedParts(before: Contents, after: Contents, f: FileMetadata, nodes: set<string>, n: string)
    requires n in nodes && SameOutside(before, after, FilePlaces(f, nodes)) && f.chunks != []
    ensures var mid := Patched(before, after, Places(n, f.key, f.version, f.chunks));
      && SameOutside(before, mid, Places(n, f.key, f.version, f.chunks))
      && SameOutside(mid, after, FilePlaces(f, nodes - {n}))
  {
    hide Places;
    assert ObjectPlaces(n, f.key, f.version, f.chunks) == Places(n, f.key, f.version, f.chunks);
    hide ObjectPlaces;
    forall p | p !in FilePlaces(f, nodes - {n}) && p !in Places(n, f.key, f.version, f.chunks)
      ensures p !in FilePlaces(f, nodes)
    {
    }
  }

  /** Deleting from the replicas one after the other. */
  lemma {:induction false} ScrubsRun(h: Hasher, replicaCount: int, w: World, nodes: set<string>, after: Contents)
    requires replicaCount >= 1 && w.ctl.writer.Scrubbing? && w.ctl.writer.file.chunks != []
    requires SameOutside(w.contents, after, FilePlaces(w.ctl.writer.file, nodes))
    ensures exists moves :: History(h, replicaCount, w, moves) == w.(contents := after)
    decreases nodes
  {
    hide SameOutside, Places, Patched, FilePlaces;
    var f := w.ctl.writer.file;
    if nodes == {} {
      NoFilePlaces(w.contents, after, f);
      assert History(h, replicaCount, w, []) == w.(contents := after);
    } else {
      var n :| n in nodes;
      var mid := Patched(w.contents, after, Places(n, f.key, f.version, f.chunks));
      PatchedParts(w.contents, after, f, nodes, n);
      HistoryOne(h, replicaCount, w, Scrub(n, mid));
      ScrubsRun(h, replicaCount, w.(contents := mid), nodes - {n}, after);
      var rest :| History(h, replicaCount, w.(contents := mid), rest) == w.(contents := after);
      HistoryAppend(h, replicaCount, w, [Scrub(n, mid)], rest);
    }
  }

  lemma NoFilePlaces(before: Contents, after: Contents, f: FileMetadata)
    requires SameOutside(before, after, FilePlaces(f, {}))
    ensures after == before
  {
    assert FilePlaces(f, {}) == {};
    NothingTouched(before, after);
  }

  lemma BenignDelete(key: string, now: Time)
    ensures AllBenign([DeleteLook(key), DeleteTombstone(now)]) && AllBenign([DeleteDone])
  {
  }

  lemma Tombstones(h: Hasher, replicaCount: int, s: State, key: string, now: Time)
    requires replicaCount >= 1 && s.writer.Idle? && s.meta.Valid() && key in s.meta.files
    ensures var s' := s.(meta := s.meta.Tombstone(key, now).0, writer := Scrubbing(s.meta.files[key]),
                         log := s.log + [Removed(key, s.meta.Version(key) + 1)]);
      && Run(h, replicaCount, s, [DeleteLook(key), DeleteTombstone(now)]) == s'
      && Run(h, replicaCount, s', [DeleteDone]) == s'.(writer := Idle)
  {
    RunTwo(h, replicaCount, s, DeleteLook(key), DeleteTombstone(now));
    var s' := s.(meta := s.meta.Tombstone(key, now).0, writer := Scrubbing(s.meta.files[key]),
                 log := s.log + [Removed(key, s.meta.Version(key) + 1)]);
    RunOne(h, replicaCount, s', DeleteDone);
  }

  /** A Delete, with what it removes from the replicas, is a history. */
  lemma DeleteIsHistory(h: Hasher, replicaCount: int, w: World, key: string, now: Time, after: Contents)
    requires replicaCount >= 1 && w.ctl.writer.Idle? && w.ctl.meta.Valid() && key in w.ctl.meta.files
    requires w.ctl.meta.files[key].chunks != []
    requires SameOutside(w.contents, after, FilePlaces(w.ctl.meta.files[key], w.ctl.meta.files[key].replicas.Keys))
    ensures exists moves ::
      History(h, replicaCount, w, moves) ==
        w.(ctl := w.ctl.(meta := w.ctl.meta.Tombstone(key, now).0,
          log := w.ctl.log + [Removed(key, w.ctl.meta.Version(key) + 1)]),
           contents := after)
  {
    hide History, Run, SameOutside, FilePlaces, AllBenign, Meta.Valid, Meta.Tombstone, Meta.Version;
    var f := w.ctl.meta.files[key];
    BenignDelete(key, now);
    Tombstones(h, replicaCount, w.ctl, key, now);
    ControlsRun(h, replicaCount, w, [DeleteLook(key), DeleteTombstone(now)]);
    var s' := w.ctl.(meta := w.ctl.meta.Tombstone(key, now).0, writer := Scrubbing(f),
                     log := w.ctl.log + [Removed(key, w.ctl.meta.Version(key) + 1)]);
    var w1 := w.(ctl := s');
    ScrubsRun(h, replicaCount, w1, f.replicas.Keys, after);
    var scrubs :| History(h, replicaCount, w1, scrubs) == w1.(contents := after);
    HistoryAppend(h, replicaCount, w, Controls([DeleteLook(key), DeleteTombstone(now)]), scrubs);
    ControlsRun(h, replicaCount, w1.(contents := after), [DeleteDone]);
    HistoryAppend(h, replicaCount, w, Controls([DeleteLook(key), DeleteTombstone(now)]) + scrubs,
      Controls([DeleteDone]));
  }

  // ----- The control side of a history -----

  /** Whatever happens to the nodes, one move is a few steps of the control machine. */
  lemma ControlMove(h: Hasher, replicaCount: int, w: World, move: Move) returns (steps: seq<Step>)
    requires replicaCount >= 1
    ensures Move1(h, replicaCount, w, move).ctl == Run(h, replicaCount, w.ctl, steps)
  {
    hide Next, Run, Benign, Refuses, Torn, SameOutside, CopyOutcome, Backlog.Pending, PutPlaces, Places;
    var s := w.ctl;
    NoSteps(h, replicaCount, s);
    if Move1(h, replicaCount, w, move).ctl == s {
      steps := [];
    } else {
      match move {
      case Control(step) => steps := [step];
      case WriteChunk => steps := [PutChunk];
      case RefuseCommit(removed) => steps := [PutFail];
      case AbortPut(after) => steps := [PutFail];
      case WorkStart(now) => steps := [StartTask(s.backlog.Pending(now)[0].id, now)];
      case WorkFailed(after, cause, now) =>
        var t := w.worker.task;
        steps := [FailTask(t.id, cause, now), Mark(t.key, t.target, ReplicaMissing, now)];
        RunTwo(h, replicaCount, s, steps[0], steps[1]);
      case WorkFinish(now) =>
        var t := w.worker.task;
        steps := [FinishTask(t.id, now), Mark(t.key, t.target, ReplicaHealthy, now)];
        RunTwo(h, replicaCount, s, steps[0], steps[1]);
      case Crash(put, after, now) => steps := [Restart(now)];
      }
      if |steps| == 1 { RunOne(h, replicaCount, s, steps[0]); }
    }
  }

  lemma NoSteps(h: Hasher, replicaCount: int, s: State)
    requires replicaCount >= 1
    ensures Run(h, replicaCount, s, []) == s
  {
  }

  /** The control state of every history is that of a run: what holds of every run holds of every history. */
  lemma {:induction false} ControlIsRun(h: Hasher, replicaCount: int, moves: seq<Move>)
    requires replicaCount >= 1
    ensures exists steps :: After(h, replicaCount, moves).ctl == Run(h, replicaCount, INIT, steps)
  {
    hide Move1, Run;
    if moves == [] {
      NoSteps(h, replicaCount, INIT);
    } else {
      var before := moves[..|moves| - 1];
      ControlIsRun(h, replicaCount, before);
      var steps :| After(h, replicaCount, before).ctl == Run(h, replicaCount, INIT, steps);
      var more := ControlMove(h, replicaCount, After(h, replicaCount, before), moves[|moves| - 1]);
      RunAppend(h, replicaCount, INIT, steps, more);
    }
  }

  lemma HistoryControl(h: Hasher, replicaCount: int, moves: seq<Move>)
    requires replicaCount >= 1
    ensures Inv(h, After(h, replicaCount, moves).ctl) && HaveManifests(After(h, replicaCount, moves).ctl.meta)
  {
    hide Inv, HaveManifests, Run, After;
    ControlIsRun(h, replicaCount, moves);
    var steps :| After(h, replicaCount, moves).ctl == Run(h, replicaCount, INIT, steps);
    RunInv(h, replicaCount, steps);
    ReachableManifests(h, replicaCount, steps);
  }

  // ----- Every record has a manifest -----

  ghost predicate HaveManifests(m: Meta) {
    forall k <- m.files :: m.files[k].chunks != []
  }

  lemma StoredManifest(h: Hasher, s: State, now: Time)
    requires Inv(h, s) && HaveManifests(s.meta) && s.writer.Writing?
    ensures HaveManifests(s.meta.Store(FileOf(s.meta, s.writer.prep, now)))
  {
    hide LiveOk, TasksOk, ReadersOk, RepairsOk, Meta.Valid, Backlog.Valid, LogOrdered;
  }

  lemma ChangesKeepManifests(m: Meta, key: string, node: string, state: ReplicaState, now: Time)
    requires HaveManifests(m)
    ensures HaveManifests(m.MarkReplica(key, node, state, now).0)
      && HaveManifests(m.AddReplica(key, node, state, now).0)
    ensures HaveManifests(m.Tombstone(key, now).0)
  {
  }

  lemma NodesKeepManifests(m: Meta, id: string, addr: string, ttl: int, now: Time)
    requires HaveManifests(m)
    ensures HaveManifests(m.UpsertNode(id, addr, now)) && HaveManifests(m.MarkExpiredNodes(ttl, now))
  {
  }

  lemma ManifestsKept(h: Hasher, replicaCount: int, s: State, step: Step)
    requires replicaCount >= 1 && Inv(h, s) && HaveManifests(s.meta)
    ensures HaveManifests(Next(h, replicaCount, s, step).meta)
  {
    hide Inv, TasksOf, PlanOf, ReadCandidates, Meta.HealthyNodes, Meta.ListFiles, FileOf, Meta.Store, Backlog.Enqueue,
         Backlog.MarkRunning, Backlog.MarkDone, Backlog.MarkFailed, Backlog.RequeueExpiredRunning, Backlog.Restore,
         Meta.MarkReplica, Meta.AddReplica, Meta.Tombstone, Meta.UpsertNode, Meta.MarkExpiredNodes, HaveManifests,
         RepairTask, Prepared;
    match step
    case Heartbeat(id, addr, now) => NodesKeepManifests(s.meta, id, addr, 0, now);
    case ExpireNodes(ttl, now) => NodesKeepManifests(s.meta, "", "", ttl, now);
    case PutPublish(now) => if s.writer.Writing? { StoredManifest(h, s, now); }
    case DeleteTombstone(now) =>
      if s.writer.Deleting? {
        ChangesKeepManifests(s.meta, s.writer.file.key, "", ReplicaPending, now);
      }
    case Mark(key, node, state, now) => ChangesKeepManifests(s.meta, key, node, state, now);
    case RepairAdd(key, node, now) => ChangesKeepManifests(s.meta, key, node, ReplicaPending, now);
    case _ =>
  }

  /** In every reachable state every record, tombstones included, has at least one chunk. */
  lemma {:induction false} ReachableManifests(h: Hasher, replicaCount: int, steps: seq<Step>)
    requires replicaCount >= 1
    ensures HaveManifests(Run(h, replicaCount, INIT, steps).meta)
  {
    hide Next;
    if steps != [] {
      var before := steps[..|steps| - 1];
      ReachableManifests(h, replicaCount, before);
      RunInv(h, replicaCount, before);
      ManifestsKept(h, replicaCount, Run(h, replicaCount, INIT, before), steps[|steps| - 1]);
    }
  }
}

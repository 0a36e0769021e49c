/**
 * Any sequence of calls on a fresh service is a history of the joint machine, and what was proved of histories holds
 * of it.
 */
module Sessions {
  import opened Types
  import opened Chunking
  import opened Objects
  import opened Transfer
  import opened Metadata
  import opened Queue
  import opened Placement
  import opened Repair
  import opened Cluster
  import opened Durability
  import opened Histories
  import opened Service

  datatype Call =
    | Register(id: string, addr: string)
    | Expire(ttl: int)
    | Write(key: string, buffers: seq<Bytes>, end: Chunking.ReadEnd)
    | Fetch(key: string)
    | Remove(key: string)
    | Work
    | Repair
    | Requeue

  datatype Answer = Done | Stored(file: FileMetadata) | Fetched(bytes: Bytes,
    file: FileMetadata) | Refused(error: Error)

  /** Readers fill at most a buffer per call. */
  ghost predicate WellFormed(call: Call) {
    call.Write? ==> call.buffers != [] && forall x <- call.buffers :: |x| <= BUFFER_SIZE
  }

  /** The state of the joint machine between two calls. */
  ghost function Between(m: Meta, b: Backlog, log: seq<Event>, c: Contents): World {
    World(State(m, b, Idle, map[], map[], log), c, Worker.Waiting)
  }

  /** moves lead to the state the service is in. */
  ghost predicate Tracks(h: Hasher, service: ManagedFileService, moves: seq<Move>)
    reads service.coordinator.metadata, service.coordinator.tasks, service.objects
  {
    && service.Valid()
    && var w := After(h, service.coordinator.replicaCount, moves);
    w == Between(service.coordinator.metadata.State(), service.coordinator.tasks.State(), w.ctl.log,
      service.objects.contents)
  }

  ghost function LogAfter(h: Hasher, service: ManagedFileService, moves: seq<Move>): seq<Event>
    requires service.coordinator.replicaCount >= 1
  {
    After(h, service.coordinator.replicaCount, moves).ctl.log
  }

  lemma Continue(h: Hasher, replicaCount: int, moves: seq<Move>, w: World) returns (more: seq<Move>)
    requires replicaCount >= 1 && exists extra :: History(h, replicaCount, After(h, replicaCount, moves), extra) == w
    ensures After(h, replicaCount, more) == w
  {
    hide History;
    var extra :| History(h, replicaCount, After(h, replicaCount, moves), extra) == w;
    HistoryAppend(h, replicaCount, EMPTY_WORLD, moves, extra);
    more := moves + extra;
  }

  /** One control step between two calls. */
  lemma OneControl(h: Hasher, replicaCount: int, moves: seq<Move>, step: Step) returns (more: seq<Move>)
    requires replicaCount >= 1 && Benign(step)
    ensures var w := After(h, replicaCount, moves);
      After(h, replicaCount, more) == w.(ctl := Next(h, replicaCount, w.ctl, step))
  {
    hide Next, Benign, History;
    var w := After(h, replicaCount, moves);
    HistoryOne(h, replicaCount, w, Control(step));
    more := Continue(h, replicaCount, moves, w.(ctl := Next(h, replicaCount, w.ctl, step)));
  }

  // ----- One call at a time -----

  method ServeNodes(service: ManagedFileService, h: Hasher, call: Call, now: Time, ghost moves: seq<Move>)
    returns (answer: Answer, ghost more: seq<Move>)
    requires Tracks(h, service, moves) && (call.Register? || call.Expire? || call.Requeue?)
    modifies service.coordinator.metadata, service.coordinator.tasks
    ensures Tracks(h, service, more) && LogAfter(h, service, more) == LogAfter(h, service, moves) && answer == Done
  {
    hide Meta.Valid, Backlog.Valid, After, Meta.MarkExpiredNodes, Backlog.RequeueExpiredRunning, Ordering.SortedSeq,
         Backlog.Requeued;
    ghost var rc := service.coordinator.replicaCount;
    answer := Done;
    if call.Register? {
      more := OneControl(h, rc, moves, Heartbeat(call.id, call.addr, now));
      var _ := service.coordinator.RegisterNode(call.id, call.addr, now);
    } else if call.Expire? {
      more := OneControl(h, rc, moves, ExpireNodes(call.ttl, now));
      service.coordinator.metadata.MarkExpiredNodes(call.ttl, now);
    } else {
      more := OneControl(h, rc, moves, Sweep(now));
      var _ := service.coordinator.tasks.RequeueExpiredRunning(now);
    }
  }

  /** version is what the call published, 0 if nothing. */
  method ServePut(
      service: ManagedFileService, h: Hasher, key: string, buffers: seq<Bytes>, end: Chunking.ReadEnd, now: Time,
      ghost moves: seq<Move>)
    returns (answer: Answer, ghost more: seq<Move>, ghost version: nat)
    requires Tracks(h, service, moves) && WellFormed(Write(key, buffers, end))
    modifies service.coordinator.metadata, service.coordinator.tasks, service.objects
    ensures Tracks(h, service, more)
    ensures LogAfter(h, service, more) ==
      LogAfter(h, service, moves) + (if version > 0 then [Committed(key, version, Flatten(buffers))] else [])
    ensures version > 0 ==> version == old(service.coordinator.metadata.State()).NextVersion(key)
    ensures answer.Stored? ==> answer.file.key == key && answer.file.version == version > 0
    ensures !answer.Fetched?
  {
    hide Meta.Valid, Backlog.Valid, After, WriteOf, FileOf, TasksOf, Places, SameOutside, Holds, Backlog.Enqueue,
         Meta.Store, FileDescribes, Flatten, WrittenThenRemoved, Partition, FileOk, Meta.NextVersion;
    ghost var rc := service.coordinator.replicaCount;
    ghost var (w, data) := (After(h, rc, moves), Flatten(buffers));
    ghost var write := WriteOf(h, w.ctl.meta, rc, key, data);
    var r;
    ghost var published;
    r, published := service.Put(h, key, buffers, end, now);
    more, version := moves, 0;
    if end.Eof? && write.Ok? {
      WriteShape(h, w.ctl.meta, rc, key, data, now);
      NextIsPositive(w.ctl.meta, key);
      ghost var f := FileOf(w.ctl.meta, write.value, now);
      if published {
        version := f.version;
        if r.Ok? {
          PutIsHistory(h, rc, w, key, data, now, service.objects.contents);
        } else {
          NamelessIsRefusable(f);
          PutRefusedIsHistory(h, rc, w, key, data, now, service.objects.contents);
        }
        more := Continue(h, rc, moves,
          w.(ctl := w.ctl.(meta := service.coordinator.metadata.State(), backlog := service.coordinator.tasks.State(),
                           log := w.ctl.log + [Committed(key, f.version, data)]),
             contents := service.objects.contents));
      } else {
        PutFailsIsHistory(h, rc, w, key, data, service.objects.contents);
        more := Continue(h, rc, moves, w.(contents := service.objects.contents));
      }
    }
    answer := if r.Ok? then Stored(r.value) else Refused(r.error);
  }

  lemma NextIsPositive(m: Meta, key: string)
    ensures m.NextVersion(key) > 0
  {
  }

  lemma NamelessIsRefusable(f: FileMetadata)
    requires f.primary == ""
    ensures Refusable(f)
  {
  }

  method ServeGet(service: ManagedFileService, h: Hasher, key: string, now: Time, ghost moves: seq<Move>)
    returns (answer: Answer, ghost more: seq<Move>)
    requires Tracks(h, service, moves) && CollisionFree(h)
    modifies service.coordinator.metadata
    ensures Tracks(h, service, more) && LogAfter(h, service, more) == LogAfter(h, service, moves) && !answer.Stored?
    ensures answer.Fetched? ==>
      answer.file.key == key && Committed(key, answer.file.version, answer.bytes) in LogAfter(h, service, moves)
      && answer.file.version == old(service.coordinator.metadata.State()).Version(key)
  {
    hide Meta.Valid, Backlog.Valid, After, Placement.ReadCandidates, Demoted, CollisionFree, FileDescribes, Tried,
         ServedBy, NoneHealthy, HealthyHolder, Inv, Backed, Meta.Version;
    ghost var rc := service.coordinator.replicaCount;
    ghost var w := After(h, rc, moves);
    HistoryControl(h, rc, moves);
    CandidatesBacked(h, w.ctl, key);
    ghost var plan := Placement.ReadCandidates(w.ctl.meta, key);
    ghost var data := if plan.Ok? then CommittedData(h, w.ctl.log, plan.value.metadata) else [];
    var r;
    ghost var failures;
    r, failures := service.Get(h, key, now, data);
    more := moves;
    if plan.Ok? {
      GetIsHistory(h, rc, w, 0, key, failures, now);
      more := Continue(h, rc, moves, w.(ctl := w.ctl.(meta := Demoted(w.ctl.meta, key, plan.value.replicas, failures,
        now))));
      if r.Ok? { ServedPlan(h, service.objects, plan.value, |failures|, r.value); }
    }
    answer := if r.Ok? then Fetched(r.value.0, r.value.1) else Refused(r.error);
  }

  lemma CandidatesBacked(h: Hasher, s: State, key: string)
    requires Inv(h, s)
    ensures var plan := Placement.ReadCandidates(s.meta, key);
      plan.Ok? ==>
        plan.value.metadata.key == key && plan.value.metadata.version == s.meta.Version(key)
        && Backed(h, s.log, plan.value.metadata)
  {
    hide LiveOk, TasksOk, ReadersOk, RepairsOk, LogOrdered, Backlog.Valid, WriterOk, Backed, Prioritized,
         HealthyReplicas;
    if Placement.ReadCandidates(s.meta, key).Ok? { LiveSnapshot(h, s, key); }
  }

  lemma ServedPlan(h: Hasher, store: ObjectStore, plan: ReadPlan, i: nat, answer: (Bytes, FileMetadata))
    requires ServedBy(h, store, plan, i, answer)
    ensures answer.1 == plan.metadata
  {
  }

  method ServeDelete(service: ManagedFileService, h: Hasher, key: string, now: Time, ghost moves: seq<Move>)
    returns (answer: Answer, ghost more: seq<Move>)
    requires Tracks(h, service, moves)
    modifies service.coordinator.metadata, service.objects
    ensures Tracks(h, service, more) && !answer.Stored? && !answer.Fetched?
    ensures LogAfter(h, service, more) == LogAfter(h, service, moves)
      || exists v :: LogAfter(h, service, more) == LogAfter(h, service, moves) + [Removed(key, v)]
  {
    hide Meta.Valid, Backlog.Valid, After, FilePlaces, SameOutside, Meta.Version, Placement.ReadCandidates, Inv,
         Tombstoned;
    ghost var rc := service.coordinator.replicaCount;
    ghost var w := After(h, rc, moves);
    HistoryControl(h, rc, moves);
    InvMeta(h, w.ctl);
    var r := service.Delete(key, now);
    more := moves;
    if key in w.ctl.meta.files {
      DeleteIsHistory(h, rc, w, key, now, service.objects.contents);
      ghost var w' := w.(
        ctl := w.ctl.(meta := w.ctl.meta.Tombstone(key, now).0,
          log := w.ctl.log + [Removed(key, w.ctl.meta.Version(key) + 1)]),
        contents := service.objects.contents);
      more := Continue(h, rc, moves, w');
    }
    answer := if r.Ok? then Done else Refused(r.error);
  }

  method ServeWork(
      service: ManagedFileService, h: Hasher, text: Error -> string, now: Time, later: Time, ghost moves: seq<Move>)
    returns (answer: Answer, ghost more: seq<Move>)
    requires Tracks(h, service, moves)
    modifies service.coordinator.metadata, service.coordinator.tasks, service.objects
    ensures Tracks(h, service, more) && LogAfter(h, service, more) == LogAfter(h, service, moves)
    ensures !answer.Stored? && !answer.Fetched?
  {
    hide Meta.Valid, Backlog.Valid, After, SameOutside, Backlog.Pending, Worked, Meta.MarkReplica, CopyOutcome,
         Partition, GoodSource, Holds, CollisionFree, PlaceOf, Inv;
    ghost var rc := service.coordinator.replicaCount;
    ghost var w := After(h, rc, moves);
    HistoryControl(h, rc, moves);
    InvMeta(h, w.ctl);
    var r;
    ghost var copied;
    r, copied := service.WorkOnce(h, text, now, later, []);
    more := moves;
    if w.ctl.backlog.Pending(now) != [] {
      ghost var t := w.ctl.backlog.Pending(now)[0];
      QueuedManifest(h, w.ctl, now);
      WorkIsHistory(h, rc, w, now, later, text, copied, service.objects.contents);
      more := Continue(h, rc, moves,
        w.(ctl := w.ctl.(backlog := Worked(w.ctl.backlog, t, now, later, text, copied).0,
                         meta := w.ctl.meta.MarkReplica(t.key, t.target, if copied.Ok? then ReplicaHealthy
                           else ReplicaMissing,
                                                        later).0),
           contents := service.objects.contents));
    }
    answer := if r.Ok? then Done else Refused(r.error);
  }

  lemma QueuedManifest(h: Hasher, s: State, now: Time)
    requires TasksOk(h, s.log, s.meta, s.backlog) && s.backlog.Valid() && s.backlog.Pending(now) != []
    ensures s.backlog.Pending(now)[0].chunks != []
  {
    hide Backlog.Pending, Backlog.Valid;
    PendingIsQueued(s.backlog, now);
    assert TaskOk(h, s.log, s.meta, s.backlog.Pending(now)[0]);
  }

  method ServeRepair(service: ManagedFileService, h: Hasher, now: Time, ghost moves: seq<Move>)
    returns (answer: Answer, ghost more: seq<Move>)
    requires Tracks(h, service, moves)
    modifies service.coordinator.metadata, service.coordinator.tasks
    ensures Tracks(h, service, more) && LogAfter(h, service, more) == LogAfter(h, service, moves) && answer == Done
  {
    hide Meta.Valid, Backlog.Valid, After, Meta.HealthyNodes, Repaired, RepairTasks, Backlog.Enqueue;
    ghost var rc := service.coordinator.replicaCount;
    ghost var w := After(h, rc, moves);
    var ts := service.coordinator.PlanRepair(now);
    more := moves;
    if w.ctl.meta.HealthyNodes() != [] {
      RepairIsHistory(h, rc, w, 0, now, ts);
      more := Continue(h, rc, moves,
        w.(ctl := w.ctl.(meta := Repaired(w.ctl.meta, w.ctl.meta.files.Keys, rc, now),
          backlog := w.ctl.backlog.Enqueue(ts))));
    }
    answer := Done;
  }

  // ----- Whole sessions -----

  /** Call j was a write of these bytes under this key, and published this version. */
  ghost predicate WroteAt(calls: seq<Call>, versions: seq<nat>, j: nat, key: string, version: nat, bytes: Bytes) {
    && j < |calls| && j < |versions| && calls[j].Write? && calls[j].key == key && versions[j] == version > 0
    && Flatten(calls[j].buffers) == bytes
  }

  /** Everything committed was written by one of the first calls. */
  ghost predicate LogFrom(log: seq<Event>, calls: seq<Call>, versions: seq<nat>) {
    forall e <- log :: e.Committed? ==> exists j: nat :: WroteAt(calls, versions, j, e.key, e.version, e.data)
  }

  lemma LogFromMore(
      log: seq<Event>, log': seq<Event>, calls: seq<Call>, versions: seq<nat>, version: nat)
    requires LogFrom(log, calls, versions) && |versions| < |calls|
    requires log' == log || (exists k, v :: log' == log + [Removed(k, v)])
      || (version > 0 && calls[|versions|].Write?
          && log' == log + [Committed(calls[|versions|].key, version, Flatten(calls[|versions|].buffers))])
    ensures LogFrom(log', calls, versions + [version])
  {
    hide Flatten;
    forall e | e in log' && e.Committed?
      ensures exists j: nat :: WroteAt(calls, versions + [version], j, e.key, e.version, e.data)
    {
      if e in log {
        var j: nat :| WroteAt(calls, versions, j, e.key, e.version, e.data);
        assert WroteAt(calls, versions + [version], j, e.key, e.version, e.data);
      } else {
        assert WroteAt(calls, versions + [version], |versions|, e.key, e.version, e.data);
      }
    }
  }

  /** Published versions of a key grow from call to call, up to the current one. */
  ghost predicate Growing(calls: seq<Call>, versions: seq<nat>, m: Meta)
    requires |versions| <= |calls|
  {
    && (forall j: nat :: j < |versions| && versions[j] > 0 ==>
         calls[j].Write? && versions[j] <= m.Version(calls[j].key))
    && (forall j: nat, l: nat ::
          j < l < |versions| && versions[j] > 0 && versions[l] > 0 && calls[j].key == calls[l].key ==>
            versions[j] < versions[l])
  }

  lemma GrowingMore(calls: seq<Call>, versions: seq<nat>, m: Meta, m': Meta, version: nat)
    requires |versions| < |calls| && Growing(calls, versions, m) && VersionsGrow(m, m')
    requires version > 0 ==>
      var key := if calls[|versions|].Write? then calls[|versions|].key else "";
      calls[|versions|].Write? && version == m.NextVersion(key) && version <= m'.Version(key)
    ensures Growing(calls, versions + [version], m')
  {
    hide Meta.Version;
    var vs := versions + [version];
    forall j: nat | j < |vs| && vs[j] > 0 ensures calls[j].Write? && vs[j] <= m'.Version(calls[j].key) {
      if j < |versions| { assert m.Version(calls[j].key) <= m'.Version(calls[j].key); }
    }
  }

  /** No later call before i published a version of the key. */
  ghost predicate LastBefore(calls: seq<Call>, versions: seq<nat>, j: nat, i: nat, key: string) {
    forall l: nat :: j < l < i && l < |calls| && l < |versions| && calls[l].Write? && calls[l].key == key ==>
      versions[l] == 0
  }

  lemma LastOfVersion(calls: seq<Call>, versions: seq<nat>, m: Meta, j: nat, key: string, bytes: Bytes)
    requires |versions| <= |calls| && Growing(calls, versions, m)
      && WroteAt(calls, versions, j, key, m.Version(key), bytes)
    ensures LastBefore(calls, versions, j, |versions|, key)
  {
    hide Flatten, Meta.Version;
  }

  /** What a fetch answered is what the last successful write of the key, an earlier call, wrote; under its version. */
  ghost predicate FetchedWritten(calls: seq<Call>, versions: seq<nat>, answers: seq<Answer>, i: nat)
    requires i < |answers|
  {
    answers[i].Fetched? ==>
      exists j: nat ::
        && j < i && WroteAt(calls, versions, j, answers[i].file.key, answers[i].file.version, answers[i].bytes)
        && LastBefore(calls, versions, j, i, answers[i].file.key)
  }

  lemma FetchedMore(
      log: seq<Event>, m: Meta, calls: seq<Call>, versions: seq<nat>, version: nat, answers: seq<Answer>,
      answer: Answer)
    requires |versions| == |answers| < |calls| && LogFrom(log, calls, versions) && Growing(calls, versions, m)
    requires forall i: nat :: i < |answers| ==> FetchedWritten(calls, versions, answers, i)
    requires answer.Fetched? ==>
      Committed(answer.file.key, answer.file.version, answer.bytes) in log
      && answer.file.version == m.Version(answer.file.key)
    ensures forall i: nat :: i < |answers + [answer]| ==>
      FetchedWritten(calls, versions + [version], answers + [answer], i)
  {
    hide Flatten, LogFrom, Growing, Meta.Version;
    var (vs, all) := (versions + [version], answers + [answer]);
    forall i: nat | i < |all| && all[i].Fetched?
      ensures exists j: nat ::
        && j < i && WroteAt(calls, vs, j, all[i].file.key, all[i].file.version, all[i].bytes)
        && LastBefore(calls, vs, j, i, all[i].file.key)
    {
      if i < |answers| {
        assert FetchedWritten(calls, versions, answers, i);
        var j: nat :| j < i && WroteAt(calls, versions, j, all[i].file.key, all[i].file.version, all[i].bytes)
                      && LastBefore(calls, versions, j, i, all[i].file.key);
        assert WroteAt(calls, vs, j, all[i].file.key, all[i].file.version, all[i].bytes);
        assert LastBefore(calls, vs, j, i, all[i].file.key);
      } else {
        var j := WriterOf(log, calls, versions, Committed(answer.file.key, answer.file.version, answer.bytes));
        LastOfVersion(calls, versions, m, j, answer.file.key, answer.bytes);
        assert WroteAt(calls, vs, j, all[i].file.key, all[i].file.version, all[i].bytes);
        assert LastBefore(calls, vs, j, i, all[i].file.key);
      }
    }
  }

  lemma WriterOf(log: seq<Event>, calls: seq<Call>, versions: seq<nat>, e: Event) returns (j: nat)
    requires LogFrom(log, calls, versions) && e in log && e.Committed?
    ensures WroteAt(calls, versions, j, e.key, e.version, e.data)
  {
    hide Flatten, WroteAt;
    j :| WroteAt(calls, versions, j, e.key, e.version, e.data);
  }

  method ServeOne(service: ManagedFileService, h: Hasher, text: Error -> string, call: Call, ghost moves: seq<Move>)
    returns (answer: Answer, ghost more: seq<Move>, ghost version: nat)
    requires Tracks(h, service, moves) && CollisionFree(h) && WellFormed(call)
    modifies service.coordinator.metadata, service.coordinator.tasks, service.objects
    ensures Tracks(h, service, more)
    ensures var (log, log') := (LogAfter(h, service, moves), LogAfter(h, service, more));
      log' == log || (exists k, v :: log' == log + [Removed(k, v)])
      || (version > 0 && call.Write? && log' == log + [Committed(call.key, version, Flatten(call.buffers))])
    ensures VersionsGrow(old(service.coordinator.metadata.State()), service.coordinator.metadata.State())
    ensures version > 0 ==>
      call.Write? && version == old(service.coordinator.metadata.State()).NextVersion(call.key)
      && version <= service.coordinator.metadata.State().Version(call.key)
    ensures answer.Fetched? ==>
      Committed(answer.file.key, answer.file.version, answer.bytes) in LogAfter(h, service, moves)
      && answer.file.version == old(service.coordinator.metadata.State()).Version(answer.file.key)
    ensures answer.Stored? ==> call.Write? && answer.file.key == call.key && answer.file.version == version > 0
  {
    hide Tracks, LogAfter, CollisionFree, WellFormed, Flatten, VersionsGrow, Meta.Version, Meta.NextVersion;
    ghost var m := service.coordinator.metadata.State();
    TrackedMeta(h, service, moves);
    var now: Time, later: Time := *, *;
    version := 0;
    match call {
    case Register(_, _) => answer, more := ServeNodes(service, h, call, now, moves);
    case Expire(_) => answer, more := ServeNodes(service, h, call, now, moves);
    case Requeue => answer, more := ServeNodes(service, h, call, now, moves);
    case Write(key, buffers, end) => answer, more, version := ServePut(service, h, key, buffers, end, now, moves);
    case Fetch(key) => answer, more := ServeGet(service, h, key, now, moves);
    case Remove(key) => answer, more := ServeDelete(service, h, key, now, moves);
    case Work => answer, more := ServeWork(service, h, text, now, later, moves);
    case Repair => answer, more := ServeRepair(service, h, now, moves);
    }
    TrackedMeta(h, service, more);
    LogExtends(LogAfter(h, service, moves), LogAfter(h, service, more), call, version);
    MetaGrows(h, service.coordinator.replicaCount, moves, more, if call.Write? then call.key else "", version);
  }

  lemma TrackedMeta(h: Hasher, service: ManagedFileService, moves: seq<Move>)
    requires Tracks(h, service, moves)
    ensures service.coordinator.replicaCount >= 1
    ensures var w := After(h, service.coordinator.replicaCount, moves);
      service.coordinator.metadata.State() == w.ctl.meta && LogAfter(h, service, moves) == w.ctl.log
  {
  }

  lemma LogExtends(log: seq<Event>, log': seq<Event>, call: Call, version: nat)
    requires log' == log || (exists k, v :: log' == log + [Removed(k, v)])
      || (version > 0 && call.Write? && log' == log + [Committed(call.key, version, Flatten(call.buffers))])
    ensures log <= log'
  {
    hide Flatten;
  }

  /** Versions never go back from call to call. */
  lemma MetaGrows(h: Hasher, replicaCount: int, moves: seq<Move>, more: seq<Move>, key: string, version: nat)
    requires replicaCount >= 1
    requires After(h, replicaCount, moves).ctl.log <= After(h, replicaCount, more).ctl.log
    ensures VersionsGrow(After(h, replicaCount, moves).ctl.meta, After(h, replicaCount, more).ctl.meta)
    ensures (exists data :: Committed(key, version, data) in After(h, replicaCount, more).ctl.log) ==>
      version <= After(h, replicaCount, more).ctl.meta.Version(key)
  {
    hide After, Inv, VersionsGrow, Meta.Version, Meta.NextVersion;
    HistoryControl(h, replicaCount, moves);
    HistoryControl(h, replicaCount, more);
    LogGrows(h, After(h, replicaCount, moves).ctl, After(h, replicaCount, more).ctl);
    if data :| Committed(key, version, data) in After(h, replicaCount, more).ctl.log {
      EarlierEvent(h, After(h, replicaCount, more).ctl, Committed(key, version, data));
      NextIsMore(After(h, replicaCount, more).ctl.meta, key);
    }
  }

  lemma NextIsMore(m: Meta, key: string)
    ensures m.NextVersion(key) == m.Version(key) + 1
  {
  }

  lemma FreshTracks(h: Hasher, service: ManagedFileService)
    requires service.Valid() && service.coordinator.metadata.State() == NO_META
    requires service.coordinator.tasks.State() == NO_TASKS && service.objects.contents == map[]
    ensures Tracks(h, service, []) && LogAfter(h, service, []) == []
  {
  }

  /** Every healthy replica of every live file reads back from a faithful node. */
  ghost predicate AllReadable(h: Hasher, m: Meta, c: Contents) {
    forall key, node :: IsHealthy(m, key, node) ==> Assemble(h, m.files[key], Answers(c, node, m.files[key])).Ok?
  }

  /**
   * Any sequence of calls on a fresh service, at any times: it ends where some history of the joint machine ends;
   * what a fetch answers is what the last write of the key that published wrote, under its version; and if the
   * history is safe every healthy replica can be read back.
   */
  method Serve(service: ManagedFileService, h: Hasher, text: Error -> string, calls: seq<Call>)
    returns (answers: seq<Answer>, ghost moves: seq<Move>, ghost versions: seq<nat>)
    requires service.Valid() && service.coordinator.metadata.State() == NO_META
    requires service.coordinator.tasks.State() == NO_TASKS && service.objects.contents == map[]
    requires CollisionFree(h) && forall call <- calls :: WellFormed(call)
    modifies service.coordinator.metadata, service.coordinator.tasks, service.objects
    ensures |answers| == |versions| == |calls| && Tracks(h, service, moves)
    ensures forall i: nat :: i < |answers| ==> FetchedWritten(calls, versions, answers, i)
    ensures forall i: nat :: i < |answers| && answers[i].Stored? ==>
      calls[i].Write? && answers[i].file.key == calls[i].key && answers[i].file.version == versions[i] > 0
    ensures SafeRun(h, service.coordinator.replicaCount, moves) ==>
      AllReadable(h, service.coordinator.metadata.State(), service.objects.contents)
  {
    hide Tracks, LogAfter, CollisionFree, WellFormed, Flatten, LogFrom, FetchedWritten, SafeRun, AllReadable, Growing,
         VersionsGrow, Meta.Version, Meta.NextVersion;
    FreshTracks(h, service);
    answers, moves, versions := [], [], [];
    EmptyLogFrom(calls, service.coordinator.metadata.State());
    for i := 0 to |calls|
      invariant |answers| == |versions| == i && Tracks(h, service, moves)
      invariant LogFrom(LogAfter(h, service, moves), calls, versions)
      invariant Growing(calls, versions, service.coordinator.metadata.State())
      invariant forall j: nat :: j < i ==> FetchedWritten(calls, versions, answers, j)
      invariant forall j: nat :: j < i && answers[j].Stored? ==>
                  calls[j].Write? && answers[j].file.key == calls[j].key && answers[j].file.version == versions[j] > 0
    {
      ghost var (before, m) := (moves, service.coordinator.metadata.State());
      var answer;
      ghost var version;
      answer, moves, version := ServeOne(service, h, text, calls[i], before);
      FetchedMore(LogAfter(h, service, before), m, calls, versions, version, answers, answer);
      LogFromMore(LogAfter(h, service, before), LogAfter(h, service, moves), calls, versions, version);
      GrowingMore(calls, versions, m, service.coordinator.metadata.State(), version);
      answers, versions := answers + [answer], versions + [version];
    }
    if SafeRun(h, service.coordinator.replicaCount, moves) { SafeIsReadable(h, service, moves); }
  }

  lemma EmptyLogFrom(calls: seq<Call>, m: Meta)
    ensures LogFrom([], calls, []) && Growing(calls, [], m)
  {
  }

  lemma SafeIsReadable(h: Hasher, service: ManagedFileService, moves: seq<Move>)
    requires Tracks(h, service, moves) && CollisionFree(h) && SafeRun(h, service.coordinator.replicaCount, moves)
    ensures AllReadable(h, service.coordinator.metadata.State(), service.objects.contents)
  {
    hide SafeRun, Holds, After, CollisionFree, Meta.Valid, Backlog.Valid, Assemble, Answers;
    var (m, c) := (service.coordinator.metadata.State(), service.objects.contents);
    forall key, node | IsHealthy(m, key, node) ensures Assemble(h, m.files[key], Answers(c, node, m.files[key])).Ok? {
      HealthyIsReadable(h, service.coordinator.replicaCount, moves, key, node);
    }
  }
}

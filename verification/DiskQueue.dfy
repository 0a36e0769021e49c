/** The task queue kept in a database bucket. Each operation is the one of the in-memory queue on the decoded tasks. */
module DiskQueue {
  import opened Types
  import opened Ordering
  import opened Queue
  import opened Bolt

  function Retryable(now: Time): ReplicationTask -> Option<ReplicationTask> {
    (t: ReplicationTask) =>
      if t.state != TaskRunning && t.state != TaskFailed then None
      else Some(t.(state := TaskPending, leaseUntil := ZERO_TIME, runAfter := ZERO_TIME, updatedAt := now))
  }

  /**
   * Reopening is one pure step: it touches exactly the running and failed tasks, and doing it twice is doing it once.
   */
  lemma RestoreExact(b: Backlog, now: Time, later: Time, id: string)
    requires id in b.tasks
    ensures var (t, u) := (b.tasks[id], b.Restore(now).tasks[id]);
      && (t.state == TaskRunning || t.state == TaskFailed <==> u.state == TaskPending && t.state != TaskPending)
      && (t.state != TaskRunning && t.state != TaskFailed ==> u == t)
      && u.attempts == t.attempts && u.id == t.id
      && (t.state == TaskRunning ==> ReadyToRun(u, later))
    ensures b.Restore(now).Restore(later) == b.Restore(now)
    ensures b.Restore(now).RequeueExpiredRunning(later) == b.Restore(now)
  {
    var r := b.Restore(now);
    assert r.Restore(later).tasks == r.tasks;
    assert r.RequeueExpiredRunning(later).tasks == r.tasks;
  }

  /** Opens the queue over the bucket found on disk, returning interrupted tasks to pending. */
  method OpenDiskQueue(
      codec: Codec<ReplicationTask>, file: Bucket, now: Time)
    returns (r: Result<DiskReplicationTaskQueue>)
    requires RoundTrips(codec) && KeysFit(file) && Backlog(Decoded(codec, file)).Valid()
    ensures !Intact(codec, file) ==> r == Err(ErrDecode)
    ensures Intact(codec, file) ==>
      && r.Ok? && r.value.Valid() && r.value.codec == codec && Intact(codec, r.value.bucket) && fresh(r.value)
      && r.value.State() == Backlog(Decoded(codec, file)).Restore(now)
  {
    var q := new DiskReplicationTaskQueue(codec, file);
    var restored := q.RestoreRetryableTasks(now);
    if restored.Err? {
      return Err(restored.error);
    }
    r := Ok(q);
  }

  class DiskReplicationTaskQueue {
    var bucket: Bucket
    const codec: Codec<ReplicationTask>

    ghost function State(): Backlog
      reads this
    {
      Backlog(Decoded(codec, bucket))
    }

    ghost predicate Valid()
      reads this
    {
      RoundTrips(codec) && KeysFit(bucket) && State().Valid()
    }

    constructor (codec: Codec<ReplicationTask>, file: Bucket)
      ensures this.codec == codec && bucket == file
    {
      this.codec, bucket := codec, file;
    }

    method RestoreRetryableTasks(now: Time) returns (r: Result<()>)
      requires Valid()
      modifies this
      ensures Valid()
      ensures if Intact(codec, old(bucket)) then
          r.Ok? && Intact(codec, bucket) && State() == old(State()).Restore(now)
        else r == Err(ErrDecode) && bucket == old(bucket)
    {
      hide RoundTrips, Decoded, Backlog.Restore, Applied, Intact;
      var tx := Rewrite(codec, bucket, Retryable(now));
      if tx.Err? {
        return Err(tx.error);
      }
      RestoredBucket(codec, bucket, tx.value, now);
      bucket := tx.value;
      r := Ok(());
    }

    /**
     * All of the tasks, or none if one of their IDs cannot be a key. An ID that is taken is passed over, even if the
     * record under it cannot be read.
     */
    method Enqueue(ts: seq<ReplicationTask>) returns (r: Result<()>)
      requires Valid()
      modifies this
      ensures Valid()
      ensures r.Ok? <==> forall t <- ts :: KeyFits(t.id)
      ensures r.Err? ==> r.error == ErrBucketKey && bucket == old(bucket)
      ensures r.Ok? ==>
        && State() == old(State()).Enqueue(Filter(HasRoom(codec, old(bucket)), ts))
        && forall id :: Unreadable(codec, bucket, id) <==> Unreadable(codec, old(bucket), id)
      ensures r.Ok? && Intact(codec, old(bucket)) ==> Intact(codec, bucket) && State() == old(State()).Enqueue(ts)
    {
      hide Backlog.Enqueue, Decoded, RoundTrips, Unreadable, Filter, HasRoom;
      var tx := bucket;
      ghost var (start, free) := (State(), HasRoom(codec, bucket));
      if Intact(codec, bucket) { AllHaveRoom(codec, bucket, ts); }
      var i := 0;
      while i < |ts|
        invariant 0 <= i <= |ts| && bucket == old(bucket) && KeysFit(tx) && Backlog(Decoded(codec, tx)).Valid()
        invariant forall j :: 0 <= j < i ==> KeyFits(ts[j].id)
        invariant forall id :: Unreadable(codec, tx, id) <==> Unreadable(codec, bucket, id)
        invariant Backlog(Decoded(codec, tx)).Enqueue(Filter(free, ts[i..])) == start.Enqueue(Filter(free, ts))
      {
        EnqueueStep(codec, bucket, tx, ts, i);
        if ts[i].id in tx {
          i := i + 1;
          continue;
        }
        var put := Put(codec, tx, ts[i].id, ts[i]);
        if put.None? {
          assert !KeyFits(ts[i].id);
          return Err(ErrBucketKey);
        }
        PutDecoded(codec, tx, ts[i].id, ts[i]);
        PutReadable(codec, tx, ts[i].id, ts[i]);
        tx := put.value;
        i := i + 1;
      }
      EnqueueNothing(codec, bucket, Backlog(Decoded(codec, tx)), ts[i..]);
      IntactIffReadable(codec, bucket);
      IntactIffReadable(codec, tx);
      bucket := tx;
      r := Ok(());
    }

    method Pending(now: Time) returns (r: Listing<ReplicationTask>)
      requires Valid()
      ensures r.items == Backlog(ReadUpTo(codec, bucket)).Pending(now) && InSchedule(r.items)
      ensures r.error == if Intact(codec, bucket) then None else Some(ErrDecode)
      ensures Intact(codec, bucket) ==> r.items == State().Pending(now)
    {
      hide RoundTrips, KeysFit, ReadUpTo, Intact, Decoded, InSchedule;
      PendingOrder(State(), now);
      ReadUpToValid(codec, bucket);
      QueueInSchedule(Backlog(ReadUpTo(codec, bucket)), now);
      if Intact(codec, bucket) { ReadAll(codec, bucket); }
      r := ScanSorted(codec, bucket, Runnable(now), TaskLess, (t: ReplicationTask) => t.id);
    }

    method MarkRunning(id: string, now: Time) returns (r: Result<ReplicationTask>)
      requires Valid()
      modifies this
      ensures Valid() && (Intact(codec, old(bucket)) ==> Intact(codec, bucket))
      ensures if Unreadable(codec, old(bucket), id) then r == Err(ErrDecode) && bucket == old(bucket)
        else (State(), r) == old(State()).MarkRunning(id, now)
    {
      r := UpdateTask(id, (t: ReplicationTask) => Started(t, now));
    }

    method MarkDone(id: string, now: Time) returns (r: Result<ReplicationTask>)
      requires Valid()
      modifies this
      ensures Valid() && (Intact(codec, old(bucket)) ==> Intact(codec, bucket))
      ensures if Unreadable(codec, old(bucket), id) then r == Err(ErrDecode) && bucket == old(bucket)
        else (State(), r) == old(State()).MarkDone(id, now)
    {
      r := UpdateTask(id, (t: ReplicationTask) => Finished(t, now));
    }

    method MarkFailed(id: string, cause: string, now: Time) returns (r: Result<ReplicationTask>)
      requires Valid()
      modifies this
      ensures Valid() && (Intact(codec, old(bucket)) ==> Intact(codec, bucket))
      ensures if Unreadable(codec, old(bucket), id) then r == Err(ErrDecode) && bucket == old(bucket)
        else (State(), r) == old(State()).MarkFailed(id, cause, now)
    {
      r := UpdateTask(id, (t: ReplicationTask) => Failed(t, now, cause));
    }

    /** One read-modify-write transaction. */
    method UpdateTask(id: string, update: ReplicationTask -> ReplicationTask) returns (r: Result<ReplicationTask>)
      requires Valid() && forall t :: update(t).id == t.id
      modifies this
      ensures Valid() && (Intact(codec, old(bucket)) ==> Intact(codec, bucket))
      ensures if Unreadable(codec, old(bucket), id) then r == Err(ErrDecode) && bucket == old(bucket)
        else (State(), r) == old(State()).Update(id, update)
    {
      hide Decoded, RoundTrips;
      DecodedAt(codec, bucket, id);
      if id !in bucket {
        return Err(ErrTaskNotFound);
      }
      var found := codec.decode(bucket[id]);
      if found.None? {
        return Err(ErrDecode);
      }
      var task := update(found.value);
      PutDecoded(codec, bucket, id, task);
      bucket := Put(codec, bucket, id, task).value;
      r := Ok(task);
    }

    /** Leases that are over end, all or none; a scan that stops early still lists what it had got to. */
    method RequeueExpiredRunning(now: Time) returns (r: Listing<ReplicationTask>)
      requires Valid()
      modifies this
      ensures Valid()
      ensures r.items == SortedSeq(TaskLess, Backlog(ReadUpTo(codec, old(bucket))).Requeued(now)) && InSchedule(r.items)
      ensures if Intact(codec, old(bucket)) then
          && r == Listing(SortedSeq(TaskLess, old(State()).Requeued(now)), None)
          && Intact(codec, bucket) && State() == old(State()).RequeueExpiredRunning(now)
        else r.error == Some(ErrDecode) && bucket == old(bucket)
    {
      hide RequeuedSoFar, RoundTrips, AfterRequeue, Backlog.RequeueExpiredRunning, SortSlice, SortedSeq, ScannedKeys,
           ReadUpTo, Intact, Backlog.Requeued, IsLeast, InSchedule;
      ghost var start := State();
      ReadUpToValid(codec, bucket);
      QueueInSchedule(Backlog(ReadUpTo(codec, bucket)), now);
      var requeued: seq<ReplicationTask> := [];
      var tx := bucket;
      var todo := bucket.Keys;
      NothingRequeued(start, now, todo);
      ScanStart(codec, bucket, (t: ReplicationTask) => true);
      while todo != {}
        invariant todo <= bucket.Keys == tx.Keys && State() == start && bucket == old(bucket)
        invariant ScannedKeys(codec, bucket, todo)
        invariant forall id <- todo :: tx[id] == bucket[id]
        invariant forall id <- bucket :: id !in todo ==>
                    id in start.tasks && codec.decode(tx[id]) == Some(AfterRequeue(start.tasks[id], now))
        invariant RequeuedSoFar(start, now, todo, requeued)
      {
        LeastKey(todo);
        var id :| id in todo && IsLeast(todo, id);
        var found := codec.decode(bucket[id]);
        if found.None? {
          ScanStopped(codec, bucket, todo, id);
          RequeuedListed(codec, bucket, now, todo, requeued);
          return Listing(SortSlice(TaskLess, requeued), Some(ErrDecode));
        }
        var task := found.value;
        RequeuedOneMore(start, now, todo, requeued, id);
        RequeuedTask(codec, task, now);
        ScannedOneKey(codec, bucket, todo, id);
        todo := todo - {id};
        if task.state != TaskRunning || task.leaseUntil == ZERO_TIME || task.leaseUntil > now {
          continue;
        }
        task := LeaseLost(task, now);
        tx := tx[id := codec.encode(task)];
        requeued := requeued + [task];
      }
      ScanStopped(codec, bucket, todo, "");
      RequeuedListed(codec, bucket, now, todo, requeued);
      ReadAll(codec, bucket);
      RequeueKeepsValid(start, now);
      RequeuedBucket(codec, bucket, tx, now);
      bucket := tx;
      r := Listing(SortSlice(TaskLess, requeued), None);
    }
  }

  lemma ReadUpToValid(codec: Codec<ReplicationTask>, b: Bucket)
    requires Backlog(Decoded(codec, b)).Valid()
    ensures Backlog(ReadUpTo(codec, b)).Valid()
  {
    forall id | id in ReadUpTo(codec, b) ensures ReadUpTo(codec, b)[id].id == id {
      assert id in Decoded(codec, b) && Decoded(codec, b)[id] == ReadUpTo(codec, b)[id];
    }
  }

  lemma RequeuedListed(
      codec: Codec<ReplicationTask>, b: Bucket, now: Time, todo: set<string>, requeued: seq<ReplicationTask>)
    requires Backlog(Decoded(codec, b)).Valid() && ReadUpTo(codec, b).Keys == b.Keys - todo
    requires RequeuedSoFar(Backlog(Decoded(codec, b)), now, todo, requeued)
    ensures SortSlice(TaskLess, requeued) == SortedSeq(TaskLess, Backlog(ReadUpTo(codec, b)).Requeued(now))
  {
    hide SortSlice, SortedSeq, LeaseLost, LeaseOver;
    var part := Backlog(ReadUpTo(codec, b));
    forall id ensures id in part.tasks <==> id in Decoded(codec, b) && id !in todo { }
    assert RequeuedSoFar(part, now, {}, requeued);
    RequeuedAll(part, now, requeued);
  }

  lemma RestoredBucket(codec: Codec<ReplicationTask>, b: Bucket, tx: Bucket, now: Time)
    requires Intact(codec, b) && Intact(codec, tx) && tx.Keys == b.Keys && Backlog(Decoded(codec, b)).Valid()
      && KeysFit(b)
    requires forall k <- b :: Decoded(codec, tx)[k] == Applied(Retryable(now), Decoded(codec, b)[k])
    ensures Backlog(Decoded(codec, tx)) == Backlog(Decoded(codec, b)).Restore(now)
    ensures Backlog(Decoded(codec, tx)).Valid() && KeysFit(tx)
  {
    assert Decoded(codec, tx) == Backlog(Decoded(codec, b)).Restore(now).tasks;
  }

  /** The IDs that no unreadable record blocks. */
  ghost function HasRoom(codec: Codec<ReplicationTask>, b: Bucket): ReplicationTask -> bool {
    (t: ReplicationTask) => !Unreadable(codec, b, t.id)
  }

  lemma {:induction false} AllHaveRoom(codec: Codec<ReplicationTask>, b: Bucket, ts: seq<ReplicationTask>)
    requires Intact(codec, b)
    ensures Filter(HasRoom(codec, b), ts) == ts
  {
    if ts != [] { AllHaveRoom(codec, b, ts[1..]); }
  }

  lemma IntactIffReadable(codec: Codec<ReplicationTask>, b: Bucket)
    ensures Intact(codec, b) <==> forall id :: !Unreadable(codec, b, id)
  {
    if forall id :: !Unreadable(codec, b, id) {
      forall k | k in b ensures codec.decode(b[k]).Some? { assert !Unreadable(codec, b, k); }
    }
  }

  lemma PutReadable(codec: Codec<ReplicationTask>, b: Bucket, id: string, t: ReplicationTask)
    requires RoundTrips(codec) && KeyFits(id) && id !in b
    ensures forall k :: Unreadable(codec, Put(codec, b, id, t).value, k) <==> Unreadable(codec, b, k)
  {
    assert codec.decode(codec.encode(t)) == Some(t);
  }

  lemma EnqueueStep(codec: Codec<ReplicationTask>, b: Bucket, tx: Bucket, ts: seq<ReplicationTask>, i: nat)
    requires i < |ts| && forall id :: Unreadable(codec, tx, id) <==> Unreadable(codec, b, id)
    ensures var (q, free) := (Backlog(Decoded(codec, tx)), HasRoom(codec, b));
      q.Enqueue(Filter(free, ts[i..])) ==
        if ts[i].id in tx then q.Enqueue(Filter(free, ts[i + 1..]))
        else Backlog(q.tasks[ts[i].id := ts[i]]).Enqueue(Filter(free, ts[i + 1..]))
  {
    assert ts[i..][1..] == ts[i + 1..];
    var free := HasRoom(codec, b);
    if free(ts[i]) {
      assert Filter(free, ts[i..]) == [ts[i]] + Filter(free, ts[i + 1..]);
      assert ([ts[i]] + Filter(free, ts[i + 1..]))[1..] == Filter(free, ts[i + 1..]);
    }
  }

  lemma EnqueueNothing(codec: Codec<ReplicationTask>, b: Bucket, q: Backlog, ts: seq<ReplicationTask>)
    ensures ts == [] ==> q.Enqueue(Filter(HasRoom(codec, b), ts)) == q
  {
  }

  lemma NothingRequeued(b: Backlog, now: Time, todo: set<string>)
    requires b.tasks.Keys <= todo
    ensures RequeuedSoFar(b, now, todo, [])
  {
  }

  lemma RequeuedTask(codec: Codec<ReplicationTask>, t: ReplicationTask, now: Time)
    requires RoundTrips(codec)
    ensures AfterRequeue(t, now) == if LeaseOver(t, now) then LeaseLost(t, now) else t
    ensures codec.decode(codec.encode(LeaseLost(t, now))) == Some(LeaseLost(t, now))
  {
  }

  lemma RequeuedBucket(codec: Codec<ReplicationTask>, b: Bucket, tx: Bucket, now: Time)
    requires b.Keys == tx.Keys && KeysFit(b)
    requires forall id <- b ::
      id in Decoded(codec, b) && codec.decode(tx[id]) == Some(AfterRequeue(Decoded(codec, b)[id], now))
    ensures Intact(codec, b) && Intact(codec, tx) && KeysFit(tx)
    ensures Backlog(Decoded(codec, tx)) == Backlog(Decoded(codec, b)).RequeueExpiredRunning(now)
  {
    hide AfterRequeue;
    assert Decoded(codec, tx) == Backlog(Decoded(codec, b)).RequeueExpiredRunning(now).tasks;
  }
}

/** The replication task queue: task transitions, their order and timing, and the in-memory queue. */
module Queue {
  import opened Types
  import opened Ordering

  const LEASE: int := 30 * SECOND
  const MAX_ATTEMPTS: nat := 5
  const MAX_BACKOFF: int := 60 * SECOND
  const LEASE_EXPIRED := "replication task lease expired"

  predicate ReadyToRun(t: ReplicationTask, now: Time) {
    t.runAfter == ZERO_TIME || t.runAfter <= now
  }

  function Pow2(n: nat): nat {
    if n == 0 then 1 else 2 * Pow2(n - 1)
  }

  /** Two's complement wrap-around to 64 bits. */
  function Int64(x: int): int {
    (x + 0x8000_0000_0000_0000) % 0x1_0000_0000_0000_0000 - 0x8000_0000_0000_0000
  }

  /** Delay before the next attempt, in 64-bit nanoseconds as the program computes it. */
  function Backoff(attempts: nat): int {
    var n := if attempts < 1 then 1 else attempts;
    var backoff := Int64(SECOND * Int64(Pow2(n)));
    if backoff > MAX_BACKOFF then MAX_BACKOFF else backoff
  }

  function Started(t: ReplicationTask, now: Time): ReplicationTask {
    t.(state := TaskRunning, attempts := t.attempts + 1, leaseUntil := now + LEASE, updatedAt := now)
  }

  function Finished(t: ReplicationTask, now: Time): ReplicationTask {
    t.(state := TaskDone, leaseUntil := ZERO_TIME, runAfter := ZERO_TIME, lastError := "", updatedAt := now)
  }

  /** cause is the text of the error, empty for none. */
  function Failed(t: ReplicationTask, now: Time, cause: string): ReplicationTask {
    var u := t.(leaseUntil := ZERO_TIME, lastError := cause, updatedAt := now);
    if t.attempts >= MAX_ATTEMPTS then u.(state := TaskDead, runAfter := ZERO_TIME)
    else u.(state := TaskPending, runAfter := now + Backoff(t.attempts))
  }

  function LeaseLost(t: ReplicationTask, now: Time): ReplicationTask {
    var u := t.(leaseUntil := ZERO_TIME, lastError := LEASE_EXPIRED, updatedAt := now);
    if t.attempts >= MAX_ATTEMPTS then u.(state := TaskDead, runAfter := ZERO_TIME)
    else u.(state := TaskPending, runAfter := now)
  }

  predicate LeaseOver(t: ReplicationTask, now: Time) {
    t.state == TaskRunning && t.leaseUntil != ZERO_TIME && t.leaseUntil <= now
  }

  function AfterRequeue(t: ReplicationTask, now: Time): ReplicationTask {
    if LeaseOver(t, now) then LeaseLost(t, now) else t
  }

  /** What reopening the persistent queue does to one task. */
  function Restored(t: ReplicationTask, now: Time): ReplicationTask {
    if t.state == TaskRunning || t.state == TaskFailed then
      t.(state := TaskPending, leaseUntil := ZERO_TIME, runAfter := ZERO_TIME, updatedAt := now)
    else t
  }

  /** Scheduling order: unset start times first, then by start time, then by ID. */
  predicate TaskLess(a: ReplicationTask, b: ReplicationTask) {
    if a.runAfter != b.runAfter then
      a.runAfter == ZERO_TIME || (b.runAfter != ZERO_TIME && a.runAfter < b.runAfter)
    else StringLess(a.id, b.id)
  }

  /** The scheduling order is a strict total order on tasks with distinct IDs. */
  lemma TaskOrder(s: set<ReplicationTask>)
    requires forall a <- s, b <- s :: a.id == b.id ==> a == b
    ensures TotalOn(TaskLess, s)
  {
    forall a | a in s ensures !TaskLess(a, a) { StringLessIrreflexive(a.id); }
    forall a, b, c | a in s && b in s && c in s && TaskLess(a, b) && TaskLess(b, c) ensures TaskLess(a, c) {
      if a.runAfter == b.runAfter == c.runAfter { StringLessTransitive(a.id, b.id, c.id); }
    }
    forall a, b | a in s && b in s && a != b ensures TaskLess(a, b) || TaskLess(b, a) {
      StringLessConnected(a.id, b.id);
    }
  }

  function Runnable(now: Time): ReplicationTask -> bool {
    (t: ReplicationTask) => t.state == TaskPending && ReadyToRun(t, now)
  }

  /** The whole queue; each member function is one queue operation. */
  datatype Backlog = Backlog(tasks: map<string, ReplicationTask>) {

    ghost predicate Valid() {
      KeyedBy(tasks, (t: ReplicationTask) => t.id)
    }

    function Enqueue(ts: seq<ReplicationTask>): Backlog
      decreases |ts|
    {
      if ts == [] then this
      else if ts[0].id in tasks then Enqueue(ts[1..])
      else Backlog(tasks[ts[0].id := ts[0]]).Enqueue(ts[1..])
    }

    ghost function Pending(now: Time): (r: seq<ReplicationTask>)
      ensures forall t :: t in r <==> t in tasks.Values && t.state == TaskPending && ReadyToRun(t, now)
    {
      var r := SortedSeq(TaskLess, Kept(tasks, Runnable(now)));
      assert forall t :: t in r <==> t in Elements(r);
      r
    }

    function Update(id: string, f: ReplicationTask -> ReplicationTask): (Backlog, Result<ReplicationTask>) {
      if id !in tasks then (this, Err(ErrTaskNotFound))
      else (Backlog(tasks[id := f(tasks[id])]), Ok(f(tasks[id])))
    }

    function MarkRunning(id: string, now: Time): (Backlog, Result<ReplicationTask>) {
      Update(id, (t: ReplicationTask) => Started(t, now))
    }

    function MarkDone(id: string, now: Time): (Backlog, Result<ReplicationTask>) {
      Update(id, (t: ReplicationTask) => Finished(t, now))
    }

    function MarkFailed(id: string, cause: string, now: Time): (Backlog, Result<ReplicationTask>) {
      Update(id, (t: ReplicationTask) => Failed(t, now, cause))
    }

    ghost function Requeued(now: Time): set<ReplicationTask> {
      set id | id in tasks && LeaseOver(tasks[id], now) :: LeaseLost(tasks[id], now)
    }

    function RequeueExpiredRunning(now: Time): Backlog {
      Backlog(map id | id in tasks :: AfterRequeue(tasks[id], now))
    }

    function Restore(now: Time): Backlog {
      Backlog(map id | id in tasks :: Restored(tasks[id], now))
    }
  }

  const NO_TASKS := Backlog(map[])

  lemma PendingOrder(b: Backlog, now: Time)
    requires b.Valid()
    ensures TotalOn(TaskLess, Kept(b.tasks, Runnable(now))) && TotalOn(TaskLess, b.Requeued(now))
  {
    TaskOrder(Kept(b.tasks, Runnable(now)));
    TaskOrder(b.Requeued(now));
  }

  /** The head of Pending is runnable and no runnable task is scheduled before it. */
  lemma PendingHead(b: Backlog, now: Time, t: ReplicationTask)
    requires b.Valid() && b.Pending(now) != [] && t in b.tasks.Values && t.state == TaskPending && ReadyToRun(t, now)
    ensures var head := b.Pending(now)[0];
      head.id in b.tasks && b.tasks[head.id] == head && head.state == TaskPending && ReadyToRun(head, now)
      && (t == head || TaskLess(head, t))
  {
    PendingOrder(b, now);
    SortedSeqSorted(TaskLess, Kept(b.tasks, Runnable(now)));
    assert t in b.Pending(now);
    assert b.Pending(now)[0] in b.Pending(now);
  }

  lemma {:induction false} EnqueueOld(b: Backlog, ts: seq<ReplicationTask>)
    ensures var b' := b.Enqueue(ts);
      && (forall id <- b.tasks :: id in b'.tasks && b'.tasks[id] == b.tasks[id])
      && (forall i :: 0 <= i < |ts| ==> ts[i].id in b'.tasks)
      && (b.Valid() ==> b'.Valid())
    decreases |ts|
  {
    if ts != [] {
      var b1 := if ts[0].id in b.tasks then b else Backlog(b.tasks[ts[0].id := ts[0]]);
      EnqueueOld(b1, ts[1..]);
      forall i | 0 < i < |ts| ensures ts[i].id in b.Enqueue(ts).tasks { assert ts[i] == ts[1..][i - 1]; }
    }
  }

  /** ts[i] is the first of ts with this ID. */
  ghost predicate FirstWith(ts: seq<ReplicationTask>, i: nat, id: string) {
    i < |ts| && ts[i].id == id && forall j :: 0 <= j < i ==> ts[j].id != id
  }

  lemma {:induction false} EnqueueNew(b: Backlog, ts: seq<ReplicationTask>, id: string)
    requires id in b.Enqueue(ts).tasks && id !in b.tasks
    ensures exists i: nat :: FirstWith(ts, i, id) && b.Enqueue(ts).tasks[id] == ts[i]
    decreases |ts|
  {
    var b1 := if ts[0].id in b.tasks then b else Backlog(b.tasks[ts[0].id := ts[0]]);
    if ts[0].id == id {
      EnqueueOld(b1, ts[1..]);
      assert FirstWith(ts, 0, id);
    } else {
      EnqueueNew(b1, ts[1..], id);
      var i: nat :| FirstWith(ts[1..], i, id) && b.Enqueue(ts).tasks[id] == ts[1..][i];
      forall j | 0 <= j < i + 1 ensures ts[j].id != id {
        if j > 0 { assert ts[j] == ts[1..][j - 1]; }
      }
      assert FirstWith(ts, i + 1, id);
    }
  }

  /** Enqueue never changes a task that is already queued, keeps the first of equal IDs, and adds nothing else. */
  lemma {:induction false} EnqueueKeeps(b: Backlog, ts: seq<ReplicationTask>)
    ensures var b' := b.Enqueue(ts);
      && (forall id <- b.tasks :: id in b'.tasks && b'.tasks[id] == b.tasks[id])
      && (forall id <- b'.tasks :: id in b.tasks || exists i: nat :: FirstWith(ts, i, id) && b'.tasks[id] == ts[i])
      && (forall i :: 0 <= i < |ts| ==> ts[i].id in b'.tasks)
      && (b.Valid() ==> b'.Valid())
  {
    hide Backlog.Enqueue;
    EnqueueOld(b, ts);
    forall id | id in b.Enqueue(ts).tasks && id !in b.tasks
      ensures exists i: nat :: FirstWith(ts, i, id) && b.Enqueue(ts).tasks[id] == ts[i]
    {
      EnqueueNew(b, ts, id);
    }
  }

  // ----- The schedule -----

  /** a may be scheduled before b: unset start times first, then earlier ones, then by ID. */
  ghost predicate ComesFirst(a: ReplicationTask, b: ReplicationTask) {
    && (a.runAfter == ZERO_TIME || (b.runAfter != ZERO_TIME && a.runAfter <= b.runAfter))
    && (a.runAfter == b.runAfter ==> StringLess(a.id, b.id))
  }

  ghost predicate InSchedule(ts: seq<ReplicationTask>) {
    forall i, j :: 0 <= i < j < |ts| ==> ComesFirst(ts[i], ts[j])
  }

  /** Sorting puts tasks with distinct IDs in the order of their start times. */
  lemma SortedInSchedule(s: set<ReplicationTask>)
    requires forall a <- s, b <- s :: a.id == b.id ==> a == b
    ensures InSchedule(SortedSeq(TaskLess, s))
  {
    hide StringLess, SortedSeq;
    TaskOrder(s);
    SortedSeqSorted(TaskLess, s);
  }

  /** Pending, and what a lease sweep returns, are in schedule. */
  lemma QueueInSchedule(b: Backlog, now: Time)
    requires b.Valid()
    ensures InSchedule(b.Pending(now)) && InSchedule(SortedSeq(TaskLess, b.Requeued(now)))
  {
    hide InSchedule, TaskLess, SortedSeq;
    SortedInSchedule(Kept(b.tasks, Runnable(now)));
    SortedInSchedule(b.Requeued(now));
  }

  /** The head of Pending is the runnable task that comes first. */
  lemma HeadComesFirst(b: Backlog, now: Time, t: ReplicationTask)
    requires b.Valid() && b.Pending(now) != [] && t in b.tasks.Values && t.state == TaskPending && ReadyToRun(t, now)
    ensures var head := b.Pending(now)[0];
      head in b.tasks.Values && head.state == TaskPending && ReadyToRun(head, now)
      && (t == head || ComesFirst(head, t))
  {
    hide ComesFirst;
    QueueInSchedule(b, now);
    var p := b.Pending(now);
    assert p[0] in p && t in p;
    var i :| 0 <= i < |p| && p[i] == t;
  }

  // ----- What each operation does to an entry, field by field -----

  /** The two entries copy the same thing, and were made at the same time. */
  ghost predicate SameWork(t: ReplicationTask, u: ReplicationTask) {
    && u.id == t.id && u.key == t.key && u.version == t.version && u.checksum == t.checksum && u.chunks == t.chunks
    && u.source == t.source && u.target == t.target && u.createdAt == t.createdAt
  }

  /** b' is b but for the entry under id, which still copies the same thing and was touched at the given time. */
  ghost predicate OnlyEntry(b: Backlog, b': Backlog, id: string, now: Time) {
    && b'.tasks.Keys == b.tasks.Keys && id in b.tasks
    && SameWork(b.tasks[id], b'.tasks[id]) && b'.tasks[id].updatedAt == now
    && forall other <- b.tasks :: other != id ==> b'.tasks[other] == b.tasks[other]
  }

  /** A start counts one attempt and gives a lease of 30 seconds. */
  lemma StartExact(b: Backlog, id: string, now: Time)
    ensures id !in b.tasks ==> b.MarkRunning(id, now) == (b, Err(ErrTaskNotFound))
    ensures id in b.tasks ==>
      var (b', r) := b.MarkRunning(id, now);
      && OnlyEntry(b, b', id, now) && r == Ok(b'.tasks[id])
      && var (t, u) := (b.tasks[id], b'.tasks[id]);
      && u.state == TaskRunning && u.attempts == t.attempts + 1 && u.leaseUntil == now + 30_000_000_000
      && u.runAfter == t.runAfter && u.lastError == t.lastError
  {
  }

  /** A finished entry is done, without lease, start time or error. */
  lemma DoneExact(b: Backlog, id: string, now: Time)
    ensures id !in b.tasks ==> b.MarkDone(id, now) == (b, Err(ErrTaskNotFound))
    ensures id in b.tasks ==>
      var (b', r) := b.MarkDone(id, now);
      && OnlyEntry(b, b', id, now) && r == Ok(b'.tasks[id])
      && var (t, u) := (b.tasks[id], b'.tasks[id]);
      && u.state == TaskDone && u.attempts == t.attempts && u.leaseUntil == u.runAfter == ZERO_TIME && u.lastError == ""
  {
  }

  /** A failed entry is dead from the fifth attempt on; before that it waits 2, 4, 8 or 16 seconds. */
  lemma FailExact(b: Backlog, id: string, cause: string, now: Time)
    ensures id !in b.tasks ==> b.MarkFailed(id, cause, now) == (b, Err(ErrTaskNotFound))
    ensures id in b.tasks ==>
      var (b', r) := b.MarkFailed(id, cause, now);
      && OnlyEntry(b, b', id, now) && r == Ok(b'.tasks[id])
      && var (t, u) := (b.tasks[id], b'.tasks[id]);
      && u.attempts == t.attempts && u.leaseUntil == ZERO_TIME && u.lastError == cause
      && (t.attempts >= 5 ==> u.state == TaskDead && u.runAfter == ZERO_TIME)
      && (t.attempts < 5 ==>
            && u.state == TaskPending
            && u.runAfter - now == if t.attempts <= 1 then 2_000_000_000 else if t.attempts == 2 then 4_000_000_000
                                   else if t.attempts == 3 then 8_000_000_000 else 16_000_000_000)
  {
    if id in b.tasks && b.tasks[id].attempts < 5 {
      var t := b.tasks[id];
      var n := if t.attempts < 1 then 1 else t.attempts;
      BackoffExact(n);
      assert Pow2(2) == 4 && Pow2(3) == 8;
      assert Backoff(t.attempts) == Backoff(n);
    }
  }

  /** A lease sweep changes exactly the running entries with a set lease that is over. */
  lemma SweepExact(b: Backlog, now: Time, id: string)
    requires id in b.tasks
    ensures var (t, u) := (b.tasks[id], b.RequeueExpiredRunning(now).tasks[id]);
      var over := t.state == TaskRunning && t.leaseUntil != ZERO_TIME && t.leaseUntil <= now;
      && b.RequeueExpiredRunning(now).tasks.Keys == b.tasks.Keys
      && (!over ==> u == t)
      && (over ==>
            && SameWork(t, u) && u.updatedAt == now && u.attempts == t.attempts && u.leaseUntil == ZERO_TIME
            && u.lastError == "replication task lease expired"
            && (t.attempts >= 5 ==> u.state == TaskDead && u.runAfter == ZERO_TIME)
            && (t.attempts < 5 ==> u.state == TaskPending && u.runAfter == now))
  {
  }

  /** Reopening makes running and failed entries pending at once, and changes nothing else about them. */
  lemma RestoreFields(b: Backlog, now: Time, id: string)
    requires id in b.tasks
    ensures var (t, u) := (b.tasks[id], b.Restore(now).tasks[id]);
      && b.Restore(now).tasks.Keys == b.tasks.Keys
      && (t.state != TaskRunning && t.state != TaskFailed ==> u == t)
      && (t.state == TaskRunning || t.state == TaskFailed ==>
            && SameWork(t, u) && u.updatedAt == now && u.attempts == t.attempts && u.lastError == t.lastError
            && u.state == TaskPending && u.leaseUntil == u.runAfter == ZERO_TIME)
  {
  }

  // ----- Timing -----

  lemma {:induction false} Pow2Bounds(n: nat, m: nat)
    requires n <= m
    ensures 1 <= Pow2(n) <= Pow2(m)
    decreases m
  {
    if n < m { Pow2Bounds(n, m - 1); } else if n > 0 { Pow2Bounds(n - 1, n - 1); }
  }

  lemma EightMore(n: nat)
    ensures Pow2(n + 8) == 256 * Pow2(n)
  {
    assert Pow2(n + 2) == 4 * Pow2(n);
    assert Pow2(n + 4) == 4 * Pow2(n + 2);
    assert Pow2(n + 6) == 4 * Pow2(n + 4);
  }

  lemma LargePowers()
    ensures Pow2(33) == 0x2_0000_0000 && Pow2(34) == 0x4_0000_0000
  {
    EightMore(0);
    EightMore(8);
    EightMore(16);
    EightMore(24);
  }

  lemma Int64Fits(x: int)
    requires 0 <= x < 0x8000_0000_0000_0000
    ensures Int64(x) == x
  {
  }

  /** Up to 33 attempts nothing overflows: the delay is 2^attempts seconds, capped at a minute. */
  lemma BackoffExact(attempts: nat)
    requires 1 <= attempts <= 33
    ensures Backoff(attempts) == if attempts <= 5 then 1_000_000_000 * Pow2(attempts) else 60_000_000_000
  {
    Pow2Bounds(attempts, 33);
    LargePowers();
    Int64Fits(Pow2(attempts));
    Int64Fits(SECOND * Pow2(attempts));
    assert Pow2(5) == 32 && Pow2(6) == 64;
    if attempts <= 5 { Pow2Bounds(attempts, 5); } else { Pow2Bounds(6, attempts); }
  }

  /**
   * The 64-bit product is the true one up to 33 attempts and no further; failed tasks never get there (see
   * RetryGate).
   */
  lemma BackoffOverflows(attempts: nat)
    ensures Int64(SECOND * Int64(Pow2(attempts))) == SECOND * Pow2(attempts) <==> attempts <= 33
  {
    LargePowers();
    if attempts <= 33 {
      Pow2Bounds(attempts, 33);
      Int64Fits(Pow2(attempts));
      Int64Fits(SECOND * Pow2(attempts));
    } else {
      Pow2Bounds(34, attempts);
    }
  }

  /** A failed task is dead from the fifth attempt on, and otherwise waits exactly 2, 4, 8 or 16 seconds. */
  lemma RetryGate(t: ReplicationTask, now: Time, cause: string, later: Time)
    requires t.attempts >= 1 && now > 0
    ensures var u := Failed(t, now, cause);
      && (u.state == TaskDead <==> t.attempts >= MAX_ATTEMPTS)
      && (u.state == TaskPending <==> t.attempts < MAX_ATTEMPTS)
      && (u.state == TaskPending ==> (ReadyToRun(u, later) <==> later >= now + SECOND * Pow2(t.attempts)))
      && u.attempts == t.attempts && u.lastError == cause
  {
    if t.attempts < MAX_ATTEMPTS {
      BackoffExact(t.attempts);
      Pow2Bounds(0, t.attempts);
    }
  }

  /** A started task is left to its worker for exactly the lease, and only the running state is ever requeued. */
  lemma LeaseWindow(b: Backlog, id: string, now: Time, later: Time)
    requires id in b.tasks && now > 0
    ensures var b' := b.MarkRunning(id, now).0.RequeueExpiredRunning(later);
      && (b'.tasks[id].state == TaskRunning <==> later < now + 30_000_000_000)
      && (later >= now + 30_000_000_000 && b.tasks[id].attempts + 1 < 5 ==>
            b'.tasks[id].state == TaskPending && ReadyToRun(b'.tasks[id], later))
      && (later >= now + 30_000_000_000 && b.tasks[id].attempts + 1 >= 5 ==> b'.tasks[id].state == TaskDead)
      && forall other <- b.tasks :: other != id && b.tasks[other].state != TaskRunning ==>
           b'.tasks[other] == b.tasks[other]
  {
  }

  /** The times of k failures and of the attempts that follow them: attempt i + 1 starts once failure i allows it. */
  ghost predicate RetryHistory(t: ReplicationTask, failures: seq<Time>, starts: seq<Time>, causes: seq<string>)
    decreases |failures|
  {
    && |failures| == |starts| == |causes|
    && (failures != [] ==>
          var u := Failed(t, failures[0], causes[0]);
          && failures[0] > 0
          && u.state == TaskPending
          && ReadyToRun(u, starts[0])
          && (|failures| > 1 ==> failures[1] >= starts[0])
          && RetryHistory(Started(u, starts[0]), failures[1..], starts[1..], causes[1..]))
  }

  /**
   * If attempts a, a + 1, ..., a + k - 1 all fail, the next one starts at least 2^a (2^k - 1) seconds after
   * the first of these failures; for a = 1 that is 2^(k + 1) - 2 seconds.
   */
  lemma {:induction false} RetriesSpreadOut(
      t: ReplicationTask, failures: seq<Time>, starts: seq<Time>, causes: seq<string>)
    requires t.attempts >= 1 && failures != [] && RetryHistory(t, failures, starts, causes)
    ensures t.attempts + |failures| <= MAX_ATTEMPTS
    ensures starts[|starts| - 1] >= failures[0] + SECOND * (Pow2(t.attempts + |failures|) - Pow2(t.attempts))
    decreases |failures|
  {
    RetryGate(t, failures[0], causes[0], starts[0]);
    if |failures| > 1 {
      var u := Started(Failed(t, failures[0], causes[0]), starts[0]);
      RetriesSpreadOut(u, failures[1..], starts[1..], causes[1..]);
      assert starts[|starts| - 1] == starts[1..][|starts[1..]| - 1];
      assert Pow2(u.attempts) == 2 * Pow2(t.attempts);
    }
  }

  lemma RequeueKeepsValid(b: Backlog, now: Time)
    requires b.Valid()
    ensures b.RequeueExpiredRunning(now).Valid()
  {
  }

  /** requeued lists, each once, the expired tasks outside todo in their new state. */
  ghost predicate RequeuedSoFar(b: Backlog, now: Time, todo: set<string>, requeued: seq<ReplicationTask>) {
    && Distinct(requeued)
    && Elements(requeued) == set id | id in b.tasks && id !in todo && LeaseOver(b.tasks[id], now) ::
         LeaseLost(b.tasks[id], now)
  }

  lemma RequeuedOneMore(b: Backlog, now: Time, todo: set<string>, requeued: seq<ReplicationTask>, id: string)
    requires b.Valid() && RequeuedSoFar(b, now, todo, requeued) && id in b.tasks && id in todo
    ensures RequeuedSoFar(b, now, todo - {id},
              if LeaseOver(b.tasks[id], now) then requeued + [LeaseLost(b.tasks[id], now)] else requeued)
  {
    var task := LeaseLost(b.tasks[id], now);
    assert task !in Elements(requeued);
    if LeaseOver(b.tasks[id], now) {
      assert Elements(requeued + [task]) == Elements(requeued) + {task};
    }
  }

  lemma RequeuedAll(b: Backlog, now: Time, requeued: seq<ReplicationTask>)
    requires b.Valid() && RequeuedSoFar(b, now, {}, requeued)
    ensures SortSlice(TaskLess, requeued) == SortedSeq(TaskLess, b.Requeued(now))
  {
    PendingOrder(b, now);
    assert Elements(requeued) == b.Requeued(now);
    SortSliceIsSortedSeq(TaskLess, requeued, b.Requeued(now));
  }

  // ----- In-memory queue -----

  class MemoryQueue {
    var tasks: map<string, ReplicationTask>

    ghost function State(): Backlog
      reads this
    {
      Backlog(tasks)
    }

    constructor ()
      ensures State() == NO_TASKS
    {
      tasks := map[];
    }

    method Enqueue(ts: seq<ReplicationTask>)
      requires State().Valid()
      modifies this
      ensures State() == old(State()).Enqueue(ts) && State().Valid()
    {
      EnqueueKeeps(State(), ts);
      var i := 0;
      while i < |ts|
        invariant 0 <= i <= |ts|
        invariant State().Enqueue(ts[i..]) == old(State()).Enqueue(ts)
      {
        assert ts[i..][1..] == ts[i + 1..];
        if ts[i].id !in tasks {
          tasks := tasks[ts[i].id := ts[i]];
        }
        i := i + 1;
      }
    }

    method Pending(now: Time) returns (r: seq<ReplicationTask>)
      requires State().Valid()
      ensures r == State().Pending(now) && InSchedule(r)
    {
      PendingOrder(State(), now);
      QueueInSchedule(State(), now);
      r := CollectSorted(tasks, Runnable(now), TaskLess, (t: ReplicationTask) => t.id);
    }

    method MarkRunning(id: string, now: Time) returns (r: Result<ReplicationTask>)
      requires State().Valid()
      modifies this
      ensures (State(), r) == old(State()).MarkRunning(id, now) && State().Valid()
    {
      if id !in tasks {
        return Err(ErrTaskNotFound);
      }
      var task := tasks[id];
      task := task.(state := TaskRunning);
      task := task.(attempts := task.attempts + 1);
      task := task.(leaseUntil := now + LEASE, updatedAt := now);
      tasks := tasks[id := task];
      r := Ok(task);
    }

    method MarkDone(id: string, now: Time) returns (r: Result<ReplicationTask>)
      requires State().Valid()
      modifies this
      ensures (State(), r) == old(State()).MarkDone(id, now) && State().Valid()
    {
      if id !in tasks {
        return Err(ErrTaskNotFound);
      }
      var task := tasks[id];
      task := task.(state := TaskDone, leaseUntil := ZERO_TIME, runAfter := ZERO_TIME, lastError := "",
        updatedAt := now);
      tasks := tasks[id := task];
      r := Ok(task);
    }

    method MarkFailed(id: string, cause: string, now: Time) returns (r: Result<ReplicationTask>)
      requires State().Valid()
      modifies this
      ensures (State(), r) == old(State()).MarkFailed(id, cause, now) && State().Valid()
    {
      if id !in tasks {
        return Err(ErrTaskNotFound);
      }
      var task := Failed(tasks[id], now, cause);
      tasks := tasks[id := task];
      r := Ok(task);
    }

    method RequeueExpiredRunning(now: Time) returns (r: seq<ReplicationTask>)
      requires State().Valid()
      modifies this
      ensures State() == old(State()).RequeueExpiredRunning(now) && State().Valid()
      ensures r == SortedSeq(TaskLess, old(State()).Requeued(now)) && InSchedule(r)
    {
      ghost var start := State();
      var requeued: seq<ReplicationTask> := [];
      var todo := tasks.Keys;
      while todo != {}
        invariant todo <= tasks.Keys == start.tasks.Keys
        invariant forall id <- todo :: tasks[id] == start.tasks[id]
        invariant forall id <- tasks :: id !in todo ==> tasks[id] == AfterRequeue(start.tasks[id], now)
        invariant RequeuedSoFar(start, now, todo, requeued)
      {
        var id :| id in todo;
        var task := tasks[id];
        RequeuedOneMore(start, now, todo, requeued, id);
        todo := todo - {id};
        if LeaseOver(task, now) {
          task := LeaseLost(task, now);
          tasks := tasks[id := task];
          requeued := requeued + [task];
        }
      }
      assert tasks == start.RequeueExpiredRunning(now).tasks;
      RequeueKeepsValid(start, now);
      RequeuedAll(start, now, requeued);
      QueueInSchedule(start, now);
      r := SortSlice(TaskLess, requeued);
    }
  }
}

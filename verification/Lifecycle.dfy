/**
 * How much work the queue can cause: every run of one worker, the lease sweep of its manager loop, enqueues
 * and restarts.
 */
module Lifecycle {
  import opened Types
  import opened Queue

  /** A run so far: the queue, the task the worker holds, and what has been counted. */
  datatype Run = Run(backlog: Backlog, held: Option<string>, enqueued: nat, restarts: nat, revived: nat, moves: nat)

  datatype Step =
    | Enqueue(task: ReplicationTask)
    | Start(now: Time)
    | Done(now: Time)
    | Fail(cause: string, now: Time)
    | GiveUp                       // the worker returns on a queue error and leaves its task running
    | Sweep(now: Time)             // RequeueExpiredRunning; the manager loop runs it between worker calls
    | Restart(now: Time)

  const IDLE := Run(NO_TASKS, None, 0, 0, 0, 0)

  predicate Fresh(t: ReplicationTask) {
    t.state == TaskPending && t.attempts == 0
  }

  // ----- Sums over the tasks of a queue -----

  ghost function Total(m: map<string, ReplicationTask>, w: ReplicationTask -> nat): nat
    decreases |m|
  {
    if m == map[] then 0 else
      var id :| id in m;
      w(m[id]) + Total(m - {id}, w)
  }

  lemma {:induction false} TotalRemove(m: map<string, ReplicationTask>, w: ReplicationTask -> nat, id: string)
    requires id in m
    ensures Total(m, w) == w(m[id]) + Total(m - {id}, w)
    decreases |m|
  {
    var first :| first in m && Total(m, w) == w(m[first]) + Total(m - {first}, w);
    if first != id {
      TotalRemove(m - {first}, w, id);
      TotalRemove(m - {id}, w, first);
      assert m - {first} - {id} == m - {id} - {first};
    }
  }

  lemma TotalUpdate(m: map<string, ReplicationTask>, w: ReplicationTask -> nat, id: string, t: ReplicationTask)
    ensures Total(m[id := t], w) + (if id in m then w(m[id]) else 0) == Total(m, w) + w(t)
  {
    var m' := m[id := t];
    TotalRemove(m', w, id);
    assert m' - {id} == m - {id};
    if id in m { TotalRemove(m, w, id); } else { assert m - {id} == m; }
  }

  /** Task-wise bounds add up. */
  lemma {:induction false} TotalCompare(
      m: map<string, ReplicationTask>, m': map<string, ReplicationTask>,
      w: ReplicationTask -> nat, spent: ReplicationTask -> nat, gained: ReplicationTask -> nat)
    requires m.Keys == m'.Keys
    requires forall id <- m :: w(m'[id]) + spent(m[id]) <= w(m[id]) + gained(m[id])
    ensures Total(m', w) + Total(m, spent) <= Total(m, w) + Total(m, gained)
    decreases |m|
  {
    if m == map[] {
      assert m' == map[];
    } else {
      var id :| id in m;
      TotalRemove(m, w, id);
      TotalRemove(m, spent, id);
      TotalRemove(m, gained, id);
      TotalRemove(m', w, id);
      TotalCompare(m - {id}, m' - {id}, w, spent, gained);
    }
  }

  // ----- The machine -----

  function IsOver(now: Time): ReplicationTask -> nat {
    (t: ReplicationTask) => if LeaseOver(t, now) then 1 else 0
  }

  /** A task interrupted in its last allowed attempt, which a restart makes runnable once more. */
  function Exhausted(t: ReplicationTask): nat {
    if t.state == TaskRunning && t.attempts >= MAX_ATTEMPTS then 1 else 0
  }

  ghost function Next(r: Run, step: Step): Run {
    match step
    case Enqueue(t) =>
      if Fresh(t) && t.id !in r.backlog.tasks then r.(backlog := r.backlog.Enqueue([t]), enqueued := r.enqueued + 1)
        else r
    case Start(now) =>
      if r.held.None? && r.backlog.Pending(now) != [] then
        var id := r.backlog.Pending(now)[0].id;
        r.(backlog := r.backlog.MarkRunning(id, now).0, held := Some(id), moves := r.moves + 1)
      else r
    case Done(now) =>
      if r.held.Some? then r.(backlog := r.backlog.MarkDone(r.held.value, now).0, held := None, moves := r.moves + 1)
        else r
    case Fail(cause, now) =>
      if r.held.Some? then
        r.(backlog := r.backlog.MarkFailed(r.held.value, cause, now).0, held := None, moves := r.moves + 1)
      else r
    case GiveUp => r.(held := None)
    case Sweep(now) =>
      if r.held.None? then
        r.(backlog := r.backlog.RequeueExpiredRunning(now), moves := r.moves + Total(r.backlog.tasks, IsOver(now)))
      else r
    case Restart(now) =>
      r.(backlog := r.backlog.Restore(now), held := None, restarts := r.restarts + 1,
         revived := r.revived + Total(r.backlog.tasks, Exhausted))
  }

  ghost function After(r: Run, steps: seq<Step>): Run {
    if steps == [] then r else Next(After(r, steps[..|steps| - 1]), steps[|steps| - 1])
  }

  // ----- Potential -----

  function Left(attempts: nat): nat {
    if attempts < MAX_ATTEMPTS then 2 * (MAX_ATTEMPTS - attempts) else 0
  }

  /** Transitions a task can still make without another restart. */
  function Weight(t: ReplicationTask): nat {
    match t.state
    case TaskPending => if t.attempts < MAX_ATTEMPTS then Left(t.attempts) else 2
    case TaskRunning => 1 + Left(t.attempts)
    case TaskFailed => 1 + Left(t.attempts)
    case TaskDone => 0
    case TaskDead => 0
  }

  ghost predicate TaskBound(t: ReplicationTask, restarts: nat) {
    && t.state != TaskFailed
    && t.attempts <= MAX_ATTEMPTS + restarts
    && (t.state == TaskPending ==> t.attempts < MAX_ATTEMPTS + restarts)
  }

  ghost predicate Inv(r: Run) {
    && r.backlog.Valid()
    && (r.held.Some? ==> r.held.value in r.backlog.tasks && r.backlog.tasks[r.held.value].state == TaskRunning)
    && (forall id <- r.backlog.tasks :: TaskBound(r.backlog.tasks[id], r.restarts))
    && r.moves + Total(r.backlog.tasks, Weight) <= 2 * MAX_ATTEMPTS * r.enqueued + r.revived
  }

  lemma HeadRunnable(b: Backlog, now: Time)
    requires b.Valid() && b.Pending(now) != []
    ensures var t := b.Pending(now)[0];
      t.id in b.tasks && b.tasks[t.id] == t && t.state == TaskPending && ReadyToRun(t, now)
  {
    assert b.Pending(now)[0] in b.Pending(now);
  }

  /**
   * Replacing one task by a bounded successor with the same ID, for one move out of its weight, keeps the invariant.
   */
  lemma MoveInv(r: Run, id: string, t: ReplicationTask, held: Option<string>)
    requires Inv(r) && id in r.backlog.tasks && t.id == id && TaskBound(t, r.restarts)
    requires Weight(t) + 1 <= Weight(r.backlog.tasks[id])
    requires held == None || (held == Some(id) && t.state == TaskRunning)
    ensures Inv(r.(backlog := Backlog(r.backlog.tasks[id := t]), held := held, moves := r.moves + 1))
  {
    TotalUpdate(r.backlog.tasks, Weight, id, t);
  }

  lemma EnqueueInv(r: Run, t: ReplicationTask)
    requires Inv(r) && Fresh(t) && t.id !in r.backlog.tasks
    ensures Inv(Next(r, Enqueue(t)))
  {
    var m := r.backlog.tasks;
    assert r.backlog.Enqueue([t]).tasks == m[t.id := t] by {
      assert Backlog(m[t.id := t]).Enqueue([t][1..]) == Backlog(m[t.id := t]);
    }
    TotalUpdate(m, Weight, t.id, t);
  }

  lemma NextInv(r: Run, step: Step)
    requires Inv(r)
    ensures Inv(Next(r, step))
  {
    var m := r.backlog.tasks;
    match step
    case Enqueue(t) =>
      if Fresh(t) && t.id !in m { EnqueueInv(r, t); }
    case Start(now) =>
      if r.held.None? && r.backlog.Pending(now) != [] {
        HeadRunnable(r.backlog, now);
        var t := r.backlog.Pending(now)[0];
        MoveInv(r, t.id, Started(t, now), Some(t.id));
      }
    case Done(now) =>
      if r.held.Some? { MoveInv(r, r.held.value, Finished(m[r.held.value], now), None); }
    case Fail(cause, now) =>
      if r.held.Some? { MoveInv(r, r.held.value, Failed(m[r.held.value], now, cause), None); }
    case GiveUp =>
    case Sweep(now) =>
      if r.held.None? { SweepInv(r, now); }
    case Restart(now) => RestartInv(r, now);
  }

  lemma NoWeight(m: map<string, ReplicationTask>)
    ensures Total(m, t => 0) == 0
    decreases |m|
  {
    if m != map[] {
      var id :| id in m;
      TotalRemove(m, t => 0, id);
      NoWeight(m - {id});
    }
  }

  lemma SweepTask(t: ReplicationTask, now: Time, restarts: nat)
    requires TaskBound(t, restarts)
    ensures var u := AfterRequeue(t, now);
      u.id == t.id && TaskBound(u, restarts) && Weight(u) + IsOver(now)(t) <= Weight(t)
  {
  }

  lemma SweepInv(r: Run, now: Time)
    requires Inv(r) && r.held.None?
    ensures Inv(Next(r, Sweep(now)))
  {
    hide Weight, AfterRequeue, TaskBound, IsOver, Total;
    var m, m' := r.backlog.tasks, r.backlog.RequeueExpiredRunning(now).tasks;
    forall id | id in m
      ensures m'[id].id == id && TaskBound(m'[id], r.restarts) && Weight(m'[id]) + IsOver(now)(m[id]) <= Weight(m[id])
    {
      SweepTask(m[id], now, r.restarts);
    }
    TotalCompare(m, m', Weight, IsOver(now), t => 0);
    NoWeight(m);
  }

  lemma RestartTask(t: ReplicationTask, now: Time, restarts: nat)
    requires TaskBound(t, restarts)
    ensures var u := Restored(t, now);
      u.id == t.id && TaskBound(u, restarts + 1) && Weight(u) <= Weight(t) + Exhausted(t)
  {
  }

  lemma RestartInv(r: Run, now: Time)
    requires Inv(r)
    ensures Inv(Next(r, Restart(now)))
  {
    hide Weight, Restored, TaskBound, Exhausted, Total;
    var m, m' := r.backlog.tasks, r.backlog.Restore(now).tasks;
    forall id | id in m
      ensures m'[id].id == id && TaskBound(m'[id], r.restarts + 1) && Weight(m'[id]) <= Weight(m[id]) + Exhausted(m[id])
    {
      RestartTask(m[id], now, r.restarts);
    }
    TotalCompare(m, m', Weight, t => 0, Exhausted);
    NoWeight(m);
  }

  lemma {:induction false} AfterInv(steps: seq<Step>)
    ensures Inv(After(IDLE, steps))
  {
    if steps == [] {
      assert Total(map[], Weight) == 0;
    } else {
      AfterInv(steps[..|steps| - 1]);
      NextInv(After(IDLE, steps[..|steps| - 1]), steps[|steps| - 1]);
    }
  }

  // ----- What holds of every run -----

  /** No task is attempted more than five times plus once per restart. */
  lemma AttemptsBounded(steps: seq<Step>, id: string)
    requires id in After(IDLE, steps).backlog.tasks
    ensures After(IDLE, steps).backlog.tasks[id].attempts <= MAX_ATTEMPTS + After(IDLE, steps).restarts
  {
    AfterInv(steps);
    assert TaskBound(After(IDLE, steps).backlog.tasks[id], After(IDLE, steps).restarts);
  }

  /** Beyond the limit of attempts, or about to go beyond it. */
  predicate PastLimit(t: ReplicationTask) {
    t.attempts > MAX_ATTEMPTS || (t.state == TaskPending && t.attempts == MAX_ATTEMPTS)
  }

  ghost predicate Interrupted(r: Run, id: string) {
    id in r.backlog.tasks && r.backlog.tasks[id].state == TaskRunning && r.backlog.tasks[id].attempts >= MAX_ATTEMPTS
  }

  ghost predicate IsPastLimit(r: Run, id: string) {
    id in r.backlog.tasks && PastLimit(r.backlog.tasks[id])
  }

  lemma SweepLimit(t: ReplicationTask, now: Time, restarts: nat)
    requires TaskBound(t, restarts)
    ensures PastLimit(AfterRequeue(t, now)) <==> PastLimit(t)
  {
  }

  lemma PastLimitNext(r: Run, step: Step, id: string)
    requires Inv(r)
    ensures IsPastLimit(Next(r, step), id) <==> IsPastLimit(r, id) || (step.Restart? && Interrupted(r, id))
  {
    hide Total;
    match step
    case Enqueue(t) => if Fresh(t) && t.id !in r.backlog.tasks { EnqueueOne(r.backlog, t); }
    case Start(now) => if r.held.None? && r.backlog.Pending(now) != [] { HeadRunnable(r.backlog, now); }
    case Sweep(now) => if id in r.backlog.tasks { SweepLimit(r.backlog.tasks[id], now, r.restarts); }
    case _ => if id in r.backlog.tasks { assert TaskBound(r.backlog.tasks[id], r.restarts); }
  }

  lemma EnqueueOne(b: Backlog, t: ReplicationTask)
    requires t.id !in b.tasks
    ensures b.Enqueue([t]) == Backlog(b.tasks[t.id := t])
  {
    assert Backlog(b.tasks[t.id := t]).Enqueue([t][1..]) == Backlog(b.tasks[t.id := t]);
  }

  /** Some restart found the entry in what should have been its last attempt. */
  ghost predicate WasRevived(steps: seq<Step>, id: string) {
    exists i :: 0 <= i < |steps| && steps[i].Restart? && Interrupted(After(IDLE, steps[..i]), id)
  }

  /** An entry passes five attempts, or waits for a sixth, exactly if a restart found it running with at least five. */
  lemma {:induction false} PastLimitExact(steps: seq<Step>, id: string)
    ensures IsPastLimit(After(IDLE, steps), id) <==> WasRevived(steps, id)
  {
    hide Interrupted, Next;
    if steps != [] {
      var (before, last) := (steps[..|steps| - 1], steps[|steps| - 1]);
      var r := After(IDLE, before);
      PastLimitExact(before, id);
      AfterInv(before);
      PastLimitNext(r, last, id);
      if WasRevived(before, id) {
        var i :| 0 <= i < |before| && before[i].Restart? && Interrupted(After(IDLE, before[..i]), id);
        assert before[..i] == steps[..i] && before[i] == steps[i];
      }
      if WasRevived(steps, id) {
        var i :| 0 <= i < |steps| && steps[i].Restart? && Interrupted(After(IDLE, steps[..i]), id);
        if i < |before| { assert before[..i] == steps[..i] && before[i] == steps[i]; }
      }
    }
  }

  ghost predicate NeverGivesUp(steps: seq<Step>) {
    forall i :: 0 <= i < |steps| ==> steps[i] != GiveUp
  }

  ghost predicate OnlyHeldRuns(r: Run) {
    forall id <- r.backlog.tasks :: r.backlog.tasks[id].state == TaskRunning ==> r.held == Some(id)
  }

  lemma {:induction false} AtMostOne(m: map<string, ReplicationTask>, id: string)
    requires forall other <- m :: m[other].state == TaskRunning ==> other == id
    ensures Total(m, Exhausted) <= 1
    decreases |m|
  {
    if m != map[] {
      var first :| first in m;
      TotalRemove(m, Exhausted, first);
      if first == id {
        TotalCompare(m - {id}, m - {id}, Exhausted, Exhausted, t => 0);
        NoWeight(m - {id});
      } else {
        AtMostOne(m - {first}, id);
      }
    }
  }

  lemma OnlyHeldRunsNext(r: Run, step: Step)
    requires Inv(r) && OnlyHeldRuns(r) && step != GiveUp
    ensures OnlyHeldRuns(Next(r, step))
    ensures Next(r, step).revived - r.revived <= Next(r, step).restarts - r.restarts
  {
    match step
    case Enqueue(t) => EnqueueKeeps(r.backlog, [t]);
    case Start(now) => if r.held.None? && r.backlog.Pending(now) != [] { HeadRunnable(r.backlog, now); }
    case Restart(now) => AtMostOne(r.backlog.tasks, if r.held.Some? then r.held.value else "");
    case _ =>
  }

  lemma {:induction false} RevivedBound(steps: seq<Step>)
    requires NeverGivesUp(steps)
    ensures OnlyHeldRuns(After(IDLE, steps)) && After(IDLE, steps).revived <= After(IDLE, steps).restarts
  {
    if steps != [] {
      var before := steps[..|steps| - 1];
      RevivedBound(before);
      AfterInv(before);
      OnlyHeldRunsNext(After(IDLE, before), steps[|steps| - 1]);
    }
  }

  /**
   * Starts, completions, failures and lease expiries together number at most ten per enqueued task, plus one
   * for each interrupted last attempt that a restart revives; without queue errors that is at most one per restart.
   */
  lemma WorkBounded(steps: seq<Step>)
    ensures After(IDLE, steps).moves <= 10 * After(IDLE, steps).enqueued + After(IDLE, steps).revived
    ensures NeverGivesUp(steps) ==>
      After(IDLE, steps).moves <= 10 * After(IDLE, steps).enqueued + After(IDLE, steps).restarts
  {
    AfterInv(steps);
    if NeverGivesUp(steps) { RevivedBound(steps); }
  }

  lemma FinishedStays(r: Run, step: Step, id: string)
    requires Inv(r) && id in r.backlog.tasks && r.backlog.tasks[id].state in {TaskDone, TaskDead}
    ensures id in Next(r, step).backlog.tasks && Next(r, step).backlog.tasks[id] == r.backlog.tasks[id]
  {
    match step
    case Enqueue(t) => EnqueueKeeps(r.backlog, [t]);
    case Start(now) => if r.held.None? && r.backlog.Pending(now) != [] { HeadRunnable(r.backlog, now); }
    case _ =>
  }

  /** Done and dead are final: no later step changes such a task in any way. */
  lemma {:induction false} FinishedForGood(steps: seq<Step>, more: seq<Step>, id: string)
    requires id in After(IDLE, steps).backlog.tasks
    requires After(IDLE, steps).backlog.tasks[id].state in {TaskDone, TaskDead}
    ensures id in After(IDLE, steps + more).backlog.tasks
    ensures After(IDLE, steps + more).backlog.tasks[id] == After(IDLE, steps).backlog.tasks[id]
    decreases |more|
  {
    hide Next, Inv;
    if more == [] {
      assert steps + more == steps;
    } else {
      var before, last := more[..|more| - 1], more[|more| - 1];
      var r := After(IDLE, steps + before);
      assert (steps + more)[..|steps + more| - 1] == steps + before;
      FinishedForGood(steps, before, id);
      AfterInv(steps + before);
      FinishedStays(r, last, id);
    }
  }

  /** The queue itself does not protect a dead task: a worker that outlives its lease brings it back. */
  lemma LateWorkerRevivesDead(b: Backlog, id: string, start: Time, sweep: Time, end: Time)
    requires id in b.tasks && b.tasks[id].attempts == MAX_ATTEMPTS - 1 && 0 < start && start + LEASE <= sweep
    ensures var swept := b.MarkRunning(id, start).0.RequeueExpiredRunning(sweep);
      swept.tasks[id].state == TaskDead && swept.MarkDone(id, end).0.tasks[id].state == TaskDone
  {
  }
}

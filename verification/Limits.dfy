/** The bounds on attempts and on queue transitions are reached: the runs that use them up. */
module Limits {
  import opened Types
  import opened Queue
  import opened Lifecycle

  lemma {:induction false} AfterAppend(r: Run, a: seq<Step>, b: seq<Step>)
    ensures After(r, a + b) == After(After(r, a), b)
    decreases |b|
  {
    hide Next;
    if b == [] {
      assert a + b == a;
    } else {
      assert (a + b)[..|a + b| - 1] == a + b[..|b| - 1];
      AfterAppend(r, a, b[..|b| - 1]);
    }
  }

  lemma AfterOne(r: Run, step: Step)
    ensures After(r, [step]) == Next(r, step) && NeverGivesUp([step]) == (step != GiveUp)
  {
    hide Next;
    assert [step][..0] == [];
  }

  lemma NeverAppend(a: seq<Step>, b: seq<Step>)
    requires NeverGivesUp(a) && NeverGivesUp(b)
    ensures NeverGivesUp(a + b)
  {
  }

  /** Only this entry is pending or running. */
  ghost predicate Alone(b: Backlog, id: string) {
    && b.Valid() && id in b.tasks
    && forall other <- b.tasks :: other != id ==> b.tasks[other].state == TaskDead
  }

  /** The counters of a run. */
  ghost predicate Counts(r: Run, enqueued: nat, restarts: nat, moves: nat) {
    r.enqueued == enqueued && r.restarts == restarts && r.moves == moves
  }

  /** The entry waits after the given number of attempts and may start at the given time. */
  ghost predicate Waits(r: Run, id: string, attempts: nat, now: Time) {
    && Alone(r.backlog, id) && r.held.None?
    && r.backlog.tasks[id].state == TaskPending && r.backlog.tasks[id].attempts == attempts
    && ReadyToRun(r.backlog.tasks[id], now)
  }

  ghost predicate Runs(r: Run, id: string, attempts: nat) {
    && Alone(r.backlog, id) && r.held == Some(id)
    && r.backlog.tasks[id].state == TaskRunning && r.backlog.tasks[id].attempts == attempts
  }

  lemma OnlyOneWaits(b: Backlog, id: string, now: Time)
    requires Alone(b, id) && b.tasks[id].state == TaskPending && ReadyToRun(b.tasks[id], now)
    ensures b.Pending(now) != [] && b.Pending(now)[0] == b.tasks[id]
  {
    assert b.tasks[id] in b.tasks.Values;
    assert b.tasks[id] in b.Pending(now);
    HeadRunnable(b, now);
  }

  lemma Starting(r: Run, id: string, attempts: nat, now: Time)
    requires Waits(r, id, attempts, now)
    ensures Runs(Next(r, Start(now)), id, attempts + 1)
    ensures Counts(Next(r, Start(now)), r.enqueued, r.restarts, r.moves + 1)
    ensures Next(r, Start(now)).backlog.tasks.Keys == r.backlog.tasks.Keys
  {
    OnlyOneWaits(r.backlog, id, now);
    assert r.backlog.tasks[id].id == id;
    hide Backlog.Pending;
  }

  lemma Failing(r: Run, id: string, attempts: nat, now: Time)
    requires Runs(r, id, attempts) && attempts >= 1 && now > 0
    ensures var r' := Next(r, Fail("", now));
      && r'.held.None? && r'.backlog.tasks.Keys == r.backlog.tasks.Keys
      && Counts(r', r.enqueued, r.restarts, r.moves + 1)
      && (attempts < MAX_ATTEMPTS ==> Waits(r', id, attempts, now + MAX_BACKOFF))
      && (attempts >= MAX_ATTEMPTS ==> Alone(r'.backlog, id) && r'.backlog.tasks[id].state == TaskDead)
  {
    hide Failed;
    var t := r.backlog.tasks[id];
    RetryGate(t, now, "", now + MAX_BACKOFF);
    FailedId(t, now);
    if attempts < MAX_ATTEMPTS {
      Pow2Bounds(attempts, 4);
      assert Pow2(4) == 16;
    }
  }

  lemma FailedId(t: ReplicationTask, now: Time)
    ensures Failed(t, now, "").id == t.id
  {
  }

  lemma Restarting(r: Run, id: string, attempts: nat, now: Time)
    requires Runs(r, id, attempts)
    ensures Waits(Next(r, Restart(now)), id, attempts, now)
    ensures Counts(Next(r, Restart(now)), r.enqueued, r.restarts + 1, r.moves)
    ensures Next(r, Restart(now)).backlog.tasks.Keys == r.backlog.tasks.Keys
  {
    hide Total;
  }

  /** Attempts that fail, up to the one before the last. */
  lemma {:induction false} FailedAttempts(
      r: Run, id: string, attempts: nat, now: Time)
    returns (steps: seq<Step>, later: Time)
    requires Waits(r, id, attempts, now) && attempts < MAX_ATTEMPTS && now > 0
    ensures NeverGivesUp(steps) && later >= now
    ensures var r' := After(r, steps);
      && Waits(r', id, MAX_ATTEMPTS - 1, later) && r'.backlog.tasks.Keys == r.backlog.tasks.Keys
      && Counts(r', r.enqueued, r.restarts, r.moves + 2 * (MAX_ATTEMPTS - 1 - attempts))
    decreases MAX_ATTEMPTS - attempts
  {
    hide Next, Waits, Runs, NeverGivesUp;
    if attempts == MAX_ATTEMPTS - 1 {
      steps, later := [], now;
      NeverNothing();
    } else {
      var (first, second) := (Start(now), Fail("", now));
      Starting(r, id, attempts, now);
      Failing(Next(r, first), id, attempts + 1, now);
      AfterTwo(r, first, second);
      var rest;
      rest, later := FailedAttempts(After(r, [first, second]), id, attempts + 1, now + MAX_BACKOFF);
      AfterAppend(r, [first, second], rest);
      NeverAppend([first, second], rest);
      steps := [first, second] + rest;
    }
  }

  lemma NeverNothing()
    ensures NeverGivesUp([])
  {
  }

  lemma AfterTwo(r: Run, a: Step, b: Step)
    ensures After(r, [a, b]) == Next(Next(r, a), b)
    ensures a != GiveUp && b != GiveUp ==> NeverGivesUp([a, b])
  {
    hide Next;
    AfterOne(r, a);
    assert [a, b][..1] == [a];
  }

  /** Each restart in what was the last attempt gives one more. */
  lemma {:induction false} Revivals(
      r: Run, id: string, attempts: nat, now: Time, restarts: nat)
    returns (steps: seq<Step>)
    requires Runs(r, id, attempts)
    ensures NeverGivesUp(steps)
    ensures var r' := After(r, steps);
      && Runs(r', id, attempts + restarts) && r'.backlog.tasks.Keys == r.backlog.tasks.Keys
      && Counts(r', r.enqueued, r.restarts + restarts, r.moves + restarts)
    decreases restarts
  {
    hide Next, Waits, Runs, NeverGivesUp;
    if restarts == 0 {
      steps := [];
      NeverNothing();
    } else {
      Restarting(r, id, attempts, now);
      Starting(Next(r, Restart(now)), id, attempts, now);
      AfterTwo(r, Restart(now), Start(now));
      var rest := Revivals(After(r, [Restart(now), Start(now)]), id, attempts + 1, now, restarts - 1);
      AfterAppend(r, [Restart(now), Start(now)], rest);
      NeverAppend([Restart(now), Start(now)], rest);
      steps := [Restart(now), Start(now)] + rest;
    }
  }

  /** From a fresh entry to its last attempt, with the given number of restarts in that attempt. */
  lemma LastAttempt(r: Run, id: string, now: Time, restarts: nat) returns (steps: seq<Step>, later: Time)
    requires Waits(r, id, 0, now) && now > 0
    ensures NeverGivesUp(steps) && later >= now
    ensures var r' := After(r, steps);
      && Runs(r', id, MAX_ATTEMPTS + restarts) && r'.backlog.tasks.Keys == r.backlog.tasks.Keys
      && Counts(r', r.enqueued, r.restarts + restarts, r.moves + 9 + restarts)
  {
    hide Next, Waits, Runs, NeverGivesUp;
    var failed;
    failed, later := FailedAttempts(r, id, 0, now);
    var r1 := After(r, failed);
    Starting(r1, id, MAX_ATTEMPTS - 1, later);
    AfterOne(r1, Start(later));
    AfterAppend(r, failed, [Start(later)]);
    NeverAppend(failed, [Start(later)]);
    var rest := Revivals(Next(r1, Start(later)), id, MAX_ATTEMPTS, later, restarts);
    AfterAppend(r, failed + [Start(later)], rest);
    NeverAppend(failed + [Start(later)], rest);
    steps := failed + [Start(later)] + rest;
  }

  // ----- Many entries -----

  function Name(n: nat): string {
    seq(n, i => 'x')
  }

  function FreshTask(n: nat): ReplicationTask {
    ReplicationTask(Name(n), "", 0, "", [], "", "", TaskPending, 0, "", ZERO_TIME, ZERO_TIME, ZERO_TIME, ZERO_TIME)
  }

  /** n entries have run and died. */
  ghost predicate Spent(r: Run, n: nat) {
    && r.backlog.Valid() && r.held.None?
    && (forall id <- r.backlog.tasks :: r.backlog.tasks[id].state == TaskDead && |id| < n)
    && Counts(r, n, 0, 10 * n)
  }

  lemma Enqueuing(r: Run, n: nat, now: Time)
    requires Spent(r, n)
    ensures var r' := Next(r, Enqueue(FreshTask(n)));
      && Waits(r', Name(n), 0, now) && Counts(r', n + 1, 0, 10 * n)
      && r'.backlog.tasks.Keys == r.backlog.tasks.Keys + {Name(n)}
  {
    EnqueueOne(r.backlog, FreshTask(n));
  }

  /** One more entry, up to its last attempt. */
  lemma OneMoreEntry(r: Run, n: nat, now: Time, restarts: nat) returns (steps: seq<Step>, later: Time)
    requires Spent(r, n) && now > 0
    ensures NeverGivesUp(steps) && later >= now
    ensures var r' := After(r, steps);
      && Runs(r', Name(n), MAX_ATTEMPTS + restarts) && r'.backlog.tasks.Keys == r.backlog.tasks.Keys + {Name(n)}
      && Counts(r', n + 1, restarts, 10 * n + 9 + restarts)
  {
    hide Next, Waits, Runs, NeverGivesUp, Spent;
    Enqueuing(r, n, now);
    AfterOne(r, Enqueue(FreshTask(n)));
    var rest;
    rest, later := LastAttempt(Next(r, Enqueue(FreshTask(n))), Name(n), now, restarts);
    AfterAppend(r, [Enqueue(FreshTask(n))], rest);
    NeverAppend([Enqueue(FreshTask(n))], rest);
    steps := [Enqueue(FreshTask(n))] + rest;
  }

  lemma Ending(r: Run, r': Run, n: nat, now: Time)
    requires Spent(r, n) && now > 0
    requires Runs(r', Name(n), MAX_ATTEMPTS) && r'.backlog.tasks.Keys == r.backlog.tasks.Keys + {Name(n)}
    requires Counts(r', n + 1, 0, 10 * n + 9)
    ensures Spent(Next(r', Fail("", now)), n + 1)
  {
    hide Next, Failed;
    Failing(r', Name(n), MAX_ATTEMPTS, now);
    var r2 := Next(r', Fail("", now));
    forall id | id in r2.backlog.tasks ensures r2.backlog.tasks[id].state == TaskDead && |id| < n + 1 {
    }
  }

  lemma {:induction false} AllSpent(n: nat) returns (steps: seq<Step>, now: Time)
    ensures NeverGivesUp(steps) && Spent(After(IDLE, steps), n) && now > 0
  {
    hide Next, Runs, Spent, NeverGivesUp;
    if n == 0 {
      steps, now := [], 1;
      NeverNothing();
      NothingSpent();
    } else {
      var before, rest;
      before, now := AllSpent(n - 1);
      var r := After(IDLE, before);
      rest, now := OneMoreEntry(r, n - 1, now, 0);
      var r1 := After(r, rest);
      Ending(r, r1, n - 1, now);
      AfterOne(r1, Fail("", now));
      AfterAppend(IDLE, before, rest);
      AfterAppend(IDLE, before + rest, [Fail("", now)]);
      NeverAppend(before, rest);
      NeverAppend(before + rest, [Fail("", now)]);
      steps := before + rest + [Fail("", now)];
    }
  }

  lemma NothingSpent()
    ensures Spent(IDLE, 0) && After(IDLE, []) == IDLE
  {
  }

  /** The bound on attempts is reached for every number of restarts. */
  lemma AttemptsReached(restarts: nat)
    ensures exists steps, id ::
      var r := After(IDLE, steps);
      NeverGivesUp(steps) && r.restarts == restarts && id in r.backlog.tasks
      && r.backlog.tasks[id].attempts == MAX_ATTEMPTS + restarts
  {
    hide Next, NeverGivesUp;
    NothingSpent();
    var steps, later := OneMoreEntry(IDLE, 0, 1, restarts);
    assert Name(0) in After(IDLE, steps).backlog.tasks;
  }

  /** The bound of ten transitions per entry and one per restart is reached for every number of entries and restarts. */
  lemma WorkReached(n: nat, restarts: nat)
    requires n > 0
    ensures exists steps ::
      var r := After(IDLE, steps);
      NeverGivesUp(steps) && r.enqueued == n && r.restarts == restarts && r.moves == 10 * n + restarts
  {
    hide Next, NeverGivesUp, Spent;
    var before, now := AllSpent(n - 1);
    var r := After(IDLE, before);
    var rest, later := OneMoreEntry(r, n - 1, now, restarts);
    var r1 := After(r, rest);
    Failing(r1, Name(n - 1), MAX_ATTEMPTS + restarts, later);
    AfterOne(r1, Fail("", later));
    AfterAppend(IDLE, before, rest);
    AfterAppend(IDLE, before + rest, [Fail("", later)]);
    NeverAppend(before, rest);
    NeverAppend(before + rest, [Fail("", later)]);
    assert After(IDLE, before + rest + [Fail("", later)]).moves == 10 * n + restarts;
  }
}

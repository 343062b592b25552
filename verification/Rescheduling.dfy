/** What members' mutations do to the date columns: which states they leave, and when a
  * fresh ledger describes them. */
module Rescheduling {
  import opened Records
  import opened Tables
  import opened Dispatcher
  import opened Folding
  import Protocol

  // ---------- mutations start a ledger ----------

  /** Nothing of the task is dispatched after `start`, and what it still owes was missed
    * before and has no run. */
  ghost predicate Settled(db: Db, task: TaskId, start: Instant)
    requires task in db.tasks
  {
    && (forall r :: r in db.runs && db.runs[r].task == task ==> db.runs[r].scheduledFor <= start)
    && var missed := db.tasks[task].latestMissedAt;
       missed.Some? ==> missed.value <= start && !OccurrenceTaken(db, task, missed.value)
  }

  ghost predicate Runnable(db: Db, task: TaskId, next: Calendar, start: Instant) {
    && task in db.tasks
    && var t := db.tasks[task];
       && t.state.Active? && t.schedule.Cron? && t.nextDueAt == Some(next(start))
       && Instruction(db, task, t.version).Some? && Instruction(db, task, t.version).value != ""
  }

  lemma SettledStartsLedger(db: Db, task: TaskId, next: Calendar, start: Instant)
    requires Runnable(db, task, next, start)
    ensures JustScheduled(db, task, next, start) <==> Settled(db, task, start)
  {
  }

  lemma CreationSchedules(db: Db, id: TaskId, name: string, body: Revision, next: Calendar, start: Instant)
    requires body.schedule.Cron? && body.instruction != ""
    requires forall r :: r in db.runs ==> db.runs[r].task in db.tasks
    requires CreateTask(db, id, name, body, next(start)).1.Updated?
    ensures JustScheduled(CreateTask(db, id, name, body, next(start)).0, id, next, start)
  {
  }

  /** An update of a live task to a cron schedule whose due date was computed at `start`: the
    * folded occurrence survives, and a ledger starts if and only if nothing was dispatched
    * since. */
  lemma UpdateSchedules(db: Db, id: TaskId, expected: nat, changes: Changes, next: Calendar, start: Instant)
    requires Update(db, id, expected, changes).1.Updated? && db.tasks[id].state.Active?
    requires Revised(db, id, changes).schedule.Cron? && changes.nextDueAt == Some(next(start))
    ensures var after := Update(db, id, expected, changes).0;
            && after.tasks[id].latestMissedAt == db.tasks[id].latestMissedAt
            && (JustScheduled(after, id, next, start) <==> Settled(db, id, start))
  {
    var after := Update(db, id, expected, changes).0;
    assert after.runs == db.runs;
    assert OccurrenceTakenSame(db, after, id);
    SettledStartsLedger(after, id, next, start);
  }

  ghost predicate OccurrenceTakenSame(a: Db, b: Db, task: TaskId) {
    forall o :: OccurrenceTaken(a, task, o) == OccurrenceTaken(b, task, o)
  }

  /** The same for a resume, whatever was folded before the pause. */
  lemma ResumeSchedules(db: Db, id: TaskId, expected: nat, next: Calendar, start: Instant, now: Instant,
                        cancelled: Option<RunId>)
    requires CancelledChoice(db, id, cancelled)
    requires Resume(db, id, expected, Some(next(start)), now, cancelled).1.Updated? && db.tasks[id].schedule.Cron?
    ensures var after := Resume(db, id, expected, Some(next(start)), now, cancelled).0;
            && after.tasks[id].latestMissedAt == db.tasks[id].latestMissedAt
            && (JustScheduled(after, id, next, start) <==> Settled(db, id, start))
  {
    var after := Resume(db, id, expected, Some(next(start)), now, cancelled).0;
    assert after.runs == db.runs;
    assert OccurrenceTakenSame(db, after, id);
    SettledStartsLedger(after, id, next, start);
  }

  /** A pause in between changes neither what is owed nor what was dispatched. */
  lemma StopKeepsSettled(db: Db, id: TaskId, expected: nat, target: TaskState, start: Instant)
    requires (target.Paused? || target.Deleted?) && Stop(db, id, expected, target).1.Updated?
    ensures var after := Stop(db, id, expected, target).0;
            && after.tasks[id].latestMissedAt == db.tasks[id].latestMissedAt
            && (Settled(after, id, start) <==> Settled(db, id, start))
  {
    var after := Stop(db, id, expected, target).0;
    SameOccurrences(db, after, id);
  }

  lemma SameOccurrences(a: Db, b: Db, task: TaskId)
    requires a.runs.Keys == b.runs.Keys
    requires forall r :: r in a.runs ==> b.runs[r].task == a.runs[r].task && b.runs[r].scheduledFor == a.runs[r].scheduledFor
    ensures OccurrenceTakenSame(a, b, task)
  {
    forall o ensures OccurrenceTaken(a, task, o) == OccurrenceTaken(b, task, o) {
      if OccurrenceTaken(a, task, o) {
        var r :| r in a.runs && a.runs[r].task == task && a.runs[r].scheduledFor == o;
        assert r in b.runs && b.runs[r].task == task && b.runs[r].scheduledFor == o;
      }
      if OccurrenceTaken(b, task, o) {
        var r :| r in b.runs && b.runs[r].task == task && b.runs[r].scheduledFor == o;
        assert r in a.runs && a.runs[r].task == task && a.runs[r].scheduledFor == o;
      }
    }
  }

  /** An update that leaves the schedule alone continues the ledger it finds. */
  lemma OtherUpdatesContinue(db: Db, id: TaskId, expected: nat, changes: Changes, l: Ledger, next: Calendar)
    requires Represents(db, id, l, next)
    requires Update(db, id, expected, changes).1.Updated? && changes.schedule.None? && changes.nextDueAt.None?
    ensures Represents(Update(db, id, expected, changes).0, id, l, next)
  {
    var after := Update(db, id, expected, changes).0;
    assert after.runs == db.runs;
    forall k | 0 <= k < |l.ran| ensures OccurrenceTaken(after, id, l.ran[k]) {
      assert OccurrenceTaken(db, id, l.ran[k]);
    }
    forall o | o in Held(l) ensures !OccurrenceTaken(after, id, o) { assert !OccurrenceTaken(db, id, o); }
  }

  // ---------- which states mutations can meet ----------

  /** Up to instant `clock`: all runs of the task, and the occurrence it owes, are past; what
    * it owes and what comes next are newer than everything that has a run. */
  ghost predicate Tidy(db: Db, task: TaskId, clock: Instant) {
    forall r :: r in db.runs && db.runs[r].task == task ==>
      && task in db.tasks && db.runs[r].scheduledFor <= clock
      && (db.tasks[task].nextDueAt.Some? ==> db.runs[r].scheduledFor < db.tasks[task].nextDueAt.value)
      && (db.tasks[task].latestMissedAt.Some? ==> db.runs[r].scheduledFor < db.tasks[task].latestMissedAt.value)
  }

  ghost predicate OwesPast(db: Db, task: TaskId, clock: Instant) {
    task in db.tasks && db.tasks[task].latestMissedAt.Some? ==> db.tasks[task].latestMissedAt.value <= clock
  }

  ghost predicate TidyInv(db: Db, task: TaskId, clock: Instant) { Tidy(db, task, clock) && OwesPast(db, task, clock) }

  /** So a mutation that finds a tidy task and computes its due date now starts a ledger. */
  lemma TidyIsSettled(db: Db, task: TaskId, clock: Instant, start: Instant)
    requires task in db.tasks && TidyInv(db, task, clock) && clock <= start
    ensures Settled(db, task, start)
  {
  }

  /** The dispatch is one that a poll at `now` makes. */
  ghost predicate Polled(db: Db, step: Protocol.Step, now: Instant, next: Calendar)
    requires step.CreateDue? && Ideal(next)
  {
    && step.task in db.tasks && Dispatchable(db.tasks[step.task], now)
    && var due := DueOccurrence(db.tasks[step.task], now, next);
       && due.Some? && db.tasks[step.task].nextDueAt == Some(step.expectedDueAt)
       && step.scheduledFor == due.value.scheduledFor && step.nextDueAt == due.value.nextDueAt
  }

  /** A new due date is later than everything of the task that has a run. */
  ghost predicate FreshDue(db: Db, task: TaskId, due: Option<Instant>) {
    due.Some? ==> forall r :: r in db.runs && db.runs[r].task == task ==> db.runs[r].scheduledFor < due.value
  }

  /** What callers do, between instants `clock` and `clock'`: dispatches are polls, and
    * members' due dates are fresh. */
  ghost predicate Timely(s: Protocol.System, step: Protocol.Step, task: TaskId, clock: Instant, clock': Instant) {
    && clock <= clock'
    && match step
       case CreateDue(id, _, _, _, _, _) =>
         id == task ==> exists now, next: Calendar :: clock <= now <= clock' && Ideal(next) && Polled(s.db, step, now, next)
       case Update(id, _, changes) => id == task ==> FreshDue(s.db, task, changes.nextDueAt)
       case Resume(id, _, next, _, _) => id == task ==> FreshDue(s.db, task, next)
       case _ => true
  }

  lemma DueIsNewer(t: Task, now: Instant, next: Calendar)
    requires Ideal(next) && DueOccurrence(t, now, next).Some? && (t.latestMissedAt.Some? ==> t.latestMissedAt.value <= now)
    ensures var due := DueOccurrence(t, now, next).value;
            && due.scheduledFor <= now
            && (due.nextDueAt.Some? ==> due.scheduledFor < due.nextDueAt.value)
            && (t.nextDueAt.value <= due.scheduledFor || Some(due.scheduledFor) == t.latestMissedAt)
            && (due.nextDueAt.None? ==> due.scheduledFor == t.nextDueAt.value)
            && (due.nextDueAt.Some? ==> t.nextDueAt.value <= due.nextDueAt.value)
  {
    if t.nextDueAt.value <= now { LatestIsLast(next, t.nextDueAt.value - 1, now); }
  }

  lemma PollKeepsTidy(s: Protocol.System, step: Protocol.Step, now: Instant, next: Calendar)
    requires step.CreateDue? && Ideal(next) && Polled(s.db, step, now, next)
    requires TidyInv(s.db, step.task, now)
    ensures TidyInv(Tables.CreateDue(s.db, step.task, step.expectedDueAt, step.scheduledFor, step.nextDueAt, step.newRun, step.now).0,
                    step.task, now)
  {
    DueIsNewer(s.db.tasks[step.task], now, next);
  }

  lemma MutationKeepsTidy(s: Protocol.System, step: Protocol.Step, task: TaskId, clock: Instant)
    requires Protocol.Enabled(s, step) && TidyInv(s.db, task, clock) && step.OnTasks()
    requires Timely(s, step, task, clock, clock)
    ensures TidyInv(Protocol.After(s, step).db, task, clock)
  {
    if step.CreateTask? || step.Update? {
      DefinitionKeepsTidy(s, step, task, clock);
    } else {
      TransitionKeepsTidy(s, step, task, clock);
    }
  }

  lemma DefinitionKeepsTidy(s: Protocol.System, step: Protocol.Step, task: TaskId, clock: Instant)
    requires Protocol.Enabled(s, step) && TidyInv(s.db, task, clock) && (step.CreateTask? || step.Update?)
    requires Timely(s, step, task, clock, clock)
    ensures TidyInv(Protocol.TasksAfter(s.db, s.lock, step), task, clock)
  {
  }

  lemma TransitionKeepsTidy(s: Protocol.System, step: Protocol.Step, task: TaskId, clock: Instant)
    requires Protocol.Enabled(s, step) && TidyInv(s.db, task, clock) && (step.Pause? || step.Delete? || step.Resume?)
    requires Timely(s, step, task, clock, clock)
    ensures TidyInv(Protocol.TasksAfter(s.db, s.lock, step), task, clock)
  {
  }

  lemma OtherStepKeepsTidy(s: Protocol.System, step: Protocol.Step, task: TaskId, clock: Instant)
    requires Protocol.Enabled(s, step) && TidyInv(s.db, task, clock)
    requires !step.OnTasks()
    requires step.CreateDue? ==> step.task != task
    ensures TidyInv(Protocol.After(s, step).db, task, clock)
  {
    OtherStepsKeepRuns(s, step, task);
    OtherStepsKeepColumns(s, step, task);
  }

  lemma OtherStepsKeepColumns(s: Protocol.System, step: Protocol.Step, task: TaskId)
    requires Protocol.Enabled(s, step)
    requires !step.OnTasks()
    requires step.CreateDue? ==> step.task != task
    ensures var after := Protocol.After(s, step).db;
            && (task in after.tasks <==> task in s.db.tasks)
            && (task in s.db.tasks ==>
                  && after.tasks[task].nextDueAt == s.db.tasks[task].nextDueAt
                  && after.tasks[task].latestMissedAt == s.db.tasks[task].latestMissedAt)
  {
  }

  lemma LaterIsTidy(db: Db, task: TaskId, clock: Instant, later: Instant)
    requires TidyInv(db, task, clock) && clock <= later
    ensures TidyInv(db, task, later)
  {
  }

  lemma StepKeepsTidy(s: Protocol.System, step: Protocol.Step, task: TaskId, clock: Instant, clock': Instant)
    requires Protocol.Enabled(s, step) && TidyInv(s.db, task, clock) && Timely(s, step, task, clock, clock')
    ensures TidyInv(Protocol.After(s, step).db, task, clock')
  {
    if step.CreateDue? && step.task == task {
      var now, next: Calendar :| clock <= now <= clock' && Ideal(next) && Polled(s.db, step, now, next);
      LaterIsTidy(s.db, task, clock, now);
      PollKeepsTidy(s, step, now, next);
      LaterIsTidy(Protocol.After(s, step).db, task, now, clock');
    } else {
      LaterIsTidy(s.db, task, clock, clock');
      if step.OnTasks() {
        MutationKeepsTidy(s, step, task, clock');
      } else {
        OtherStepKeepsTidy(s, step, task, clock');
      }
    }
  }

  ghost predicate AllTimely(states: seq<Protocol.System>, steps: seq<Protocol.Step>, task: TaskId, clocks: seq<Instant>) {
    && |states| == |steps| + 1 == |clocks|
    && forall i {:trigger steps[i]} :: 0 <= i < |steps| ==> Timely(states[i], steps[i], task, clocks[i], clocks[i + 1])
  }

  /** In every run of such callers a task is tidy, so whichever mutation comes next, with
    * whatever it still owes, leaves a state that a fresh ledger describes. */
  lemma TidyAlways(states: seq<Protocol.System>, steps: seq<Protocol.Step>, task: TaskId, clocks: seq<Instant>, i: nat)
    requires Protocol.IsRun(states, steps) && AllTimely(states, steps, task, clocks) && i < |states|
    ensures TidyInv(states[i].db, task, clocks[i])
    ensures task in states[i].db.tasks ==> forall start :: clocks[i] <= start ==> Settled(states[i].db, task, start)
  {
    if i > 0 {
      TidyAlways(states, steps, task, clocks, i - 1);
      assert states[i - 1 + 1] == Protocol.After(states[i - 1], steps[i - 1]);
      StepKeepsTidy(states[i - 1], steps[i - 1], task, clocks[i - 1], clocks[i - 1 + 1]);
    }
    if task in states[i].db.tasks {
      forall start | clocks[i] <= start ensures Settled(states[i].db, task, start) {
        TidyIsSettled(states[i].db, task, clocks[i], start);
      }
    }
  }
}

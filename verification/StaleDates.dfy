/** A due date that was computed before a dispatch and committed after it makes a task owe an
  * occurrence that has its run already: which polls abort then, for how long, and which
  * callers never meet it. */
module StaleDates {
  import opened Records
  import opened Tables
  import opened Dispatcher
  import opened Folding
  import opened Rescheduling
  import Protocol
  import RunRows
  import Witnesses

  // ---------- when a poll aborts ----------

  /** The occurrence has come since the date in the row. */
  ghost predicate Came(t: Task, o: Instant, now: Instant, next: Calendar) {
    t.nextDueAt.Some? && Occurs(next, o) && t.nextDueAt.value <= o <= now
  }

  /** The occurrence a poll at `now` is about: the folded one while the next lies ahead,
    * otherwise the last one that has come. A date that is no occurrence stands for itself. */
  ghost predicate Owed(t: Task, o: Instant, now: Instant, next: Calendar) {
    && t.nextDueAt.Some?
    && if t.nextDueAt.value > now then t.latestMissedAt == Some(o)
       else if t.schedule.Cron? && exists p :: Came(t, p, now, next)
       then Came(t, o, now, next) && forall p :: Came(t, p, now, next) ==> p <= o
       else t.nextDueAt == Some(o)
  }

  lemma OwedIsDue(t: Task, now: Instant, next: Calendar, o: Instant)
    requires Ideal(next) && Dispatchable(t, now)
    ensures Owed(t, o, now, next) <==>
            DueOccurrence(t, now, next).Some? && DueOccurrence(t, now, next).value.scheduledFor == o
  {
    if t.nextDueAt.Some? && t.nextDueAt.value <= now && t.schedule.Cron? {
      var latest := Latest(next, t.nextDueAt.value - 1, now);
      LatestIsLast(next, t.nextDueAt.value - 1, now);
      if latest.Some? {
        assert Came(t, latest.value, now, next);
      } else {
        assert forall p :: !Came(t, p, now, next);
      }
    }
  }

  /** The task has no instruction to run, or the new identifier is in use. */
  predicate Unready(db: Db, task: TaskId, newRun: RunId)
    requires task in db.tasks
  {
    var instruction := Instruction(db, task, db.tasks[task].version);
    instruction.None? || instruction.value == "" || newRun in db.runs
  }

  /** A poll aborts exactly when it finds the task idle and the occurrence it is about has
    * its run already, or a run cannot be made at all. */
  lemma PollAbortsIff(db: Db, task: TaskId, now: Instant, next: Calendar, newRun: RunId)
    requires Ideal(next) && task in db.tasks
    ensures Aborts(db, task, now, next, newRun) <==>
            && Dispatchable(db.tasks[task], now) && !HasActiveRun(db, task)
            && exists o :: Owed(db.tasks[task], o, now, next) && (OccurrenceTaken(db, task, o) || Unready(db, task, newRun))
    ensures Aborts(db, task, now, next, newRun) ==> Poll(db, task, now, next, newRun) == db
  {
    if Dispatchable(db.tasks[task], now) {
      var due := DueOccurrence(db.tasks[task], now, next);
      forall o ensures Owed(db.tasks[task], o, now, next) <==> due.Some? && due.value.scheduledFor == o {
        OwedIsDue(db.tasks[task], now, next, o);
      }
      if due.Some? { assert Owed(db.tasks[task], due.value.scheduledFor, now, next); }
    }
  }

  // ---------- a stale due date ----------

  /** The cron task owes occurrence `o`, which has its run: its date has come back, or a poll
    * has folded it since. */
  ghost predicate StaleAt(db: Db, task: TaskId, o: Instant, next: Calendar) {
    && task in db.tasks && OccurrenceTaken(db, task, o) && Occurs(next, o)
    && var t := db.tasks[task];
       && t.state.Active? && t.schedule.Cron? && t.nextDueAt.Some?
       && (t.latestMissedAt.Some? ==> t.latestMissedAt.value <= o)
       && (t.nextDueAt.value <= o || (t.nextDueAt.value == next(o) && t.latestMissedAt == Some(o)))
  }

  lemma StaleOwes(db: Db, task: TaskId, o: Instant, next: Calendar, now: Instant)
    requires Ideal(next) && StaleAt(db, task, o, next) && o <= now
    ensures Dispatchable(db.tasks[task], now)
    ensures now < next(o) ==> Owed(db.tasks[task], o, now, next)
  {
    var t := db.tasks[task];
    if t.nextDueAt.value <= o && now < next(o) {
      assert Came(t, o, now, next);
      forall p | Came(t, p, now, next) ensures p <= o {
        if o < p { NextOccurs(next, o); }
      }
    }
  }

  /** An update whose date was computed at `start` does that to every occurrence dispatched
    * since then. */
  lemma UpdateMakesStale(db: Db, id: TaskId, expected: nat, changes: Changes, next: Calendar, start: Instant, o: Instant)
    requires Ideal(next) && Update(db, id, expected, changes).1.Updated? && db.tasks[id].state.Active?
    requires Revised(db, id, changes).schedule.Cron? && changes.nextDueAt == Some(next(start))
    requires start < o && Occurs(next, o) && OccurrenceTaken(db, id, o)
    requires db.tasks[id].latestMissedAt.Some? ==> db.tasks[id].latestMissedAt.value <= o
    ensures !Settled(db, id, start)
    ensures StaleAt(Update(db, id, expected, changes).0, id, o, next)
  {
    NextOccurs(next, start);
    var after := Update(db, id, expected, changes).0;
    assert after.runs == db.runs;
    var r :| r in db.runs && db.runs[r].task == id && db.runs[r].scheduledFor == o;
    assert OccurrenceTaken(after, id, o);
  }

  /** Until the next occurrence comes every poll that finds the task idle aborts, and one that
    * finds it busy folds the occurrence again: the task stays stale. */
  lemma StaleDueAborts(db: Db, task: TaskId, o: Instant, next: Calendar, now: Instant, newRun: RunId)
    requires Ideal(next) && StaleAt(db, task, o, next) && o <= now < next(o)
    ensures Aborts(db, task, now, next, newRun) <==> !HasActiveRun(db, task)
    ensures !HasActiveRun(db, task) ==> Poll(db, task, now, next, newRun) == db
    ensures HasActiveRun(db, task) ==>
              var t := db.tasks[task];
              Poll(db, task, now, next, newRun)
              == db.(tasks := db.tasks[task := t.(nextDueAt := Some(next(o)), latestMissedAt := Some(o))])
    ensures StaleAt(Poll(db, task, now, next, newRun), task, o, next)
  {
    StaleOwes(db, task, o, next, now);
    OwedIsDue(db.tasks[task], now, next, o);
    PollAbortsIff(db, task, now, next, newRun);
    assert Waiting(next, o, now);
    assert HasActiveRun(db, task) ==> OccurrenceTaken(Poll(db, task, now, next, newRun), task, o);
  }

  /** Then it recovers: a poll that finds the task idle makes the run of a newer occurrence. */
  lemma NextOccurrenceRuns(db: Db, task: TaskId, o: Instant, next: Calendar, now: Instant, newRun: RunId)
    requires Ideal(next) && StaleAt(db, task, o, next) && next(o) <= now
    requires !HasActiveRun(db, task) && !Unready(db, task, newRun)
    requires forall r :: r in db.runs && db.runs[r].task == task ==> db.runs[r].scheduledFor <= o
    ensures !Aborts(db, task, now, next, newRun)
    ensures var after := Poll(db, task, now, next, newRun);
            newRun in after.runs && after.runs[newRun].task == task && o < after.runs[newRun].scheduledFor
  {
    NextOccurs(next, o);
    LatestIsLast(next, db.tasks[task].nextDueAt.value - 1, now);
    var due := DueOccurrence(db.tasks[task], now, next).value;
    assert o < due.scheduledFor && !OccurrenceTaken(db, task, due.scheduledFor);
  }

  // ---------- over whole runs ----------

  /** No member touches the task, and its dispatches are polls made before the next occurrence. */
  ghost predicate Waits(db: Db, step: Protocol.Step, task: TaskId, o: Instant, next: Calendar)
    requires Ideal(next)
  {
    && (step.Update? || step.Pause? || step.Delete? || step.Resume? ==> step.task != task)
    && (step.CreateDue? && step.task == task ==> exists now :: o <= now < next(o) && Polled(db, step, now, next))
  }

  lemma StepKeepsStale(s: Protocol.System, step: Protocol.Step, task: TaskId, o: Instant, next: Calendar, after: Db)
    requires Protocol.Enabled(s, step) && Ideal(next) && StaleAt(s.db, task, o, next) && Waits(s.db, step, task, o, next)
    requires after == Protocol.After(s, step).db
    ensures StaleAt(after, task, o, next) && KeepsRuns(s.db, after, task)
  {
    if step.CreateDue? && step.task == task {
      var now :| o <= now < next(o) && Polled(s.db, step, now, next);
      StaleOwes(s.db, task, o, next, now);
      OwedIsDue(s.db.tasks[task], now, next, o);
      assert Waiting(next, o, now);
      assert after.runs == s.db.runs;
    } else {
      OtherStepsKeepRow(s, step, task);
      OtherStepsKeepRuns(s, step, task);
    }
    KeptOccurrence(s.db, after, task, o);
  }

  lemma KeptOccurrence(a: Db, b: Db, task: TaskId, o: Instant)
    requires KeepsRuns(a, b, task) && OccurrenceTaken(a, task, o)
    ensures OccurrenceTaken(b, task, o)
  {
    var r :| r in a.runs && a.runs[r].task == task && a.runs[r].scheduledFor == o;
    assert r in b.runs && b.runs[r].task == task && b.runs[r].scheduledFor == o;
  }

  /** So in every run a stale task gets no new run, and aborts every idle poll, until its next
    * occurrence comes or a member mutates it. */
  lemma StarvesUntilNext(states: seq<Protocol.System>, steps: seq<Protocol.Step>, task: TaskId, o: Instant, next: Calendar,
                         i: nat, j: nat)
    requires Protocol.IsRun(states, steps) && Ideal(next) && i <= j < |states| && StaleAt(states[i].db, task, o, next)
    requires forall k {:trigger steps[k]} :: i <= k < j ==> Waits(states[k].db, steps[k], task, o, next)
    ensures StaleAt(states[j].db, task, o, next) && KeepsRuns(states[i].db, states[j].db, task)
    ensures forall now, newRun :: o <= now < next(o) && !HasActiveRun(states[j].db, task)
                                  ==> Aborts(states[j].db, task, now, next, newRun)
    decreases j
  {
    if i < j {
      StarvesUntilNext(states, steps, task, o, next, i, j - 1);
      assert states[j - 1 + 1] == Protocol.After(states[j - 1], steps[j - 1]);
      StepKeepsStale(states[j - 1], steps[j - 1], task, o, next, states[j].db);
    }
    forall now, newRun | o <= now < next(o) && !HasActiveRun(states[j].db, task)
      ensures Aborts(states[j].db, task, now, next, newRun)
    {
      StaleDueAborts(states[j].db, task, o, next, now, newRun);
    }
  }

  /** Timely callers never get there: in every run of theirs a poll only aborts when a run
    * cannot be made at all. */
  lemma TimelyPollsSucceed(states: seq<Protocol.System>, steps: seq<Protocol.Step>, task: TaskId, clocks: seq<Instant>,
                           i: nat, now: Instant, next: Calendar, newRun: RunId)
    requires Protocol.IsRun(states, steps) && AllTimely(states, steps, task, clocks) && i < |states|
    requires Ideal(next) && clocks[i] <= now && task in states[i].db.tasks && !Unready(states[i].db, task, newRun)
    ensures !Aborts(states[i].db, task, now, next, newRun)
  {
    var db := states[i].db;
    TidyAlways(states, steps, task, clocks, i);
    if Aborts(db, task, now, next, newRun) {
      DueIsNewer(db.tasks[task], now, next);
    }
  }

  // ---------- a run that gets there ----------

  const HOME := Target(1, "home", Group)
  const BODY := Revision("report", Cron("*/10 * * * *", "UTC"), HOME, None)

  /** An update of the schedule whose due date was computed at instant 9. */
  const BACKDATE := Changes(None, None, Some(BODY.schedule), None, None, Some(10))

  function Tens(t: Instant): Instant { (t / 10 + 1) * 10 }

  lemma TensIsIdeal()
    ensures Ideal(Tens) && Occurs(Tens, 10) && Tens(9) == 10 && Tens(10) == 20
  {
    forall t, u | Waiting(Tens, t, u) ensures Tens(u) == Tens(t) {
      assert u / 10 == t / 10;
    }
  }

  const LAUNCHED := Run(1, 10, 12, 1, "report", HOME, None, RunStatus.Queued, 0, None, None, None, None, None, None, None)
  const SCHEDULED := Task("task", 1, BODY.schedule, HOME, None, Active, true, Some(20), None)
  const REVISIONS := map[(1, 1) := BODY, (1, 2) := BODY]
  const BACKDATED := SCHEDULED.(version := 2, nextDueAt := Some(10))
  const STALE := Db(map[], map[5 := LAUNCHED], map[1 := BACKDATED], REVISIONS)
  const FOLDED := STALE.(tasks := map[1 := BACKDATED.(nextDueAt := Some(20), latestMissedAt := Some(10))])
  const STARTED := FOLDED.(runs := map[5 := RunRows.Claim(LAUNCHED, 200)])
  const FINISHED := FOLDED.(runs := map[5 := RunRows.Finish(RunRows.Claim(LAUNCHED, 200), RunStatus.Completed, None)])
  const SELECTION := Protocol.Selection(5, 1, 1)
  const BUSY_POLL := Protocol.CreateDue(1, 10, 10, Some(20), 6, 13)

  /** The occurrence of instant 10 is dispatched while an update that was computed before it
    * waits; then the update commits. */
  lemma ReachDispatched() returns (states: seq<Protocol.System>, steps: seq<Protocol.Step>)
    ensures Protocol.IsRun(states, steps) && |steps| == 2 && steps[1] == Protocol.CreateDue(1, 10, 10, Some(20), 5, 12)
    ensures states[2] == Protocol.System(Db(map[], map[5 := LAUNCHED], map[1 := SCHEDULED], map[(1, 1) := BODY]), None)
  {
    states, steps := [Protocol.START], [];
    states, steps := Witnesses.Extend(states, steps, Protocol.CreateTask(1, "task", BODY, 10));
    states, steps := Witnesses.Extend(states, steps, Protocol.CreateDue(1, 10, 10, Some(20), 5, 12));
    assert states[2].db == Db(map[], map[5 := LAUNCHED], map[1 := SCHEDULED], map[(1, 1) := BODY]);
  }

  lemma ReachStale() returns (states: seq<Protocol.System>, steps: seq<Protocol.Step>)
    ensures Protocol.IsRun(states, steps) && |steps| == 3
    ensures steps[1] == Protocol.CreateDue(1, 10, 10, Some(20), 5, 12) && steps[2] == Protocol.Update(1, 1, BACKDATE)
    ensures states[3] == Protocol.System(STALE, None)
  {
    states, steps := ReachDispatched();
    assert Revised(states[2].db, 1, BACKDATE) == BODY && !NameTaken(states[2].db, "task", {1});
    states, steps := Witnesses.Extend(states, steps, Protocol.Update(1, 1, BACKDATE));
    assert states[3].db.tasks == map[1 := BACKDATED] && states[3].db.revisions == REVISIONS;
  }

  lemma StalePoll()
    ensures Ideal(Tens) && Polled(STALE, BUSY_POLL, 13, Tens) && !Settled(STALE, 1, 9)
    ensures Tables.CreateDue(STALE, 1, 10, 10, Some(20), 6, 13).0 == FOLDED
  {
    TensIsIdeal();
    assert 5 in STALE.runs;
    StaleOwes(STALE, 1, 10, Tens, 13);
    OwedIsDue(BACKDATED, 13, Tens, 10);
    assert Tables.CreateDue(STALE, 1, 10, 10, Some(20), 6, 13).0.tasks == FOLDED.tasks;
  }

  /** The next poll finds the task busy and folds. */
  lemma ReachFolded() returns (states: seq<Protocol.System>, steps: seq<Protocol.Step>)
    ensures Protocol.IsRun(states, steps) && |steps| == 4
    ensures steps[1].CreateDue? && steps[2] == Protocol.Update(1, 1, BACKDATE) && steps[3] == BUSY_POLL
    ensures states[3].db == STALE && states[4] == Protocol.System(FOLDED, None)
  {
    states, steps := ReachStale();
    StalePoll();
    states, steps := Witnesses.Extend(states, steps, BUSY_POLL);
  }

  lemma SelectStep()
    ensures var s, step := Protocol.System(FOLDED, None), Protocol.SelectRun(5, 13);
            Protocol.Enabled(s, step) && Protocol.After(s, step) == Protocol.System(FOLDED, Some(SELECTION))
  {
    assert ProcessingEvents(FOLDED) == {} && ProcessingRuns(FOLDED) == {};
  }

  lemma CommitStep()
    ensures var s, step := Protocol.System(FOLDED, Some(SELECTION)), Protocol.CommitRun(200);
            Protocol.Enabled(s, step) && Protocol.After(s, step) == Protocol.System(STARTED, None)
  {
    assert StartRun(FOLDED, 5, 1, 200).runs == STARTED.runs;
  }

  lemma FinishStep()
    ensures var s, step := Protocol.System(STARTED, None), Protocol.Finish(5, 1, RunStatus.Completed, None);
            Protocol.Enabled(s, step) && Protocol.After(s, step) == Protocol.System(FINISHED, None)
  {
    var done := Tables.Finish(STARTED, 5, 1, RunStatus.Completed, None);
    assert done.runs == FINISHED.runs && done.tasks == FINISHED.tasks;
  }

  lemma ReachFinished() returns (states: seq<Protocol.System>, steps: seq<Protocol.Step>)
    ensures Protocol.IsRun(states, steps) && |steps| == 7
    ensures steps[1].CreateDue? && steps[2] == Protocol.Update(1, 1, BACKDATE) && steps[3] == BUSY_POLL
    ensures states[3].db == STALE && states[7].db == FINISHED
  {
    states, steps := ReachFolded();
    SelectStep();
    states, steps := Witnesses.Extend(states, steps, Protocol.SelectRun(5, 13));
    CommitStep();
    states, steps := Witnesses.Extend(states, steps, Protocol.CommitRun(200));
    FinishStep();
    states, steps := Witnesses.Extend(states, steps, Protocol.Finish(5, 1, RunStatus.Completed, None));
  }

  lemma IdleAborts(now: Instant, newRun: RunId)
    requires Ideal(Tens) && 10 <= now < 20
    ensures 1 in FINISHED.tasks && Aborts(FINISHED, 1, now, Tens, newRun)
  {
    TensIsIdeal();
    assert 5 in FINISHED.runs;
    StaleDueAborts(FINISHED, 1, 10, Tens, now, newRun);
  }

  /** A run in which a dispatch overtakes an update: the state after it is not settled, a busy
    * poll folds, the run ends, and every poll before the next occurrence aborts. */
  lemma OvertakenUpdateStarves() returns (states: seq<Protocol.System>, steps: seq<Protocol.Step>)
    ensures Protocol.IsRun(states, steps) && |steps| == 7 && Ideal(Tens)
    ensures steps[1].CreateDue? && steps[2] == Protocol.Update(1, 1, BACKDATE) && BACKDATE.nextDueAt == Some(Tens(9))
    ensures 1 in states[3].db.tasks && !Settled(states[3].db, 1, 9)
    ensures steps[3].CreateDue? && Polled(states[3].db, steps[3], 13, Tens)
    ensures 1 in states[7].db.tasks && forall now, newRun :: 10 <= now < 20 ==> Aborts(states[7].db, 1, now, Tens, newRun)
  {
    states, steps := ReachFinished();
    StalePoll();
    TensIsIdeal();
    forall now, newRun | 10 <= now < 20 ensures Aborts(FINISHED, 1, now, Tens, newRun) { IdleAborts(now, newRun); }
  }
}

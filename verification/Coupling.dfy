/** How a task's state, its reserved name and its runs stay tied together. */
module Coupling {
  import opened Records
  import opened Tables
  import opened Protocol
  import RunRows

  predicate LiveState(t: Task) { t.state.Active? || t.state.Paused? || t.state.InFlight? }

  /** Every run has a task, at most one run of a task is active, a queued run can start,
    * and a run was claimed exactly when it is neither queued nor cancelled. */
  ghost predicate RunsFitTasks(db: Db) {
    && (forall r :: r in db.runs ==> db.runs[r].task in db.tasks)
    && (forall a, b ::
          a in db.runs && b in db.runs && db.runs[a].Active() && db.runs[b].Active() && db.runs[a].task == db.runs[b].task
          ==> a == b)
    && (forall r :: r in db.runs && db.runs[r].status.Queued? ==>
          db.tasks[db.runs[r].task].state.Active? || db.tasks[db.runs[r].task].state.InFlight?)
    && (forall r :: r in db.runs ==>
          db.runs[r].claimAttempt == if db.runs[r].status.Queued? || db.runs[r].status.Cancelled? then 0 else 1)
  }

  /** An in-flight task is a one-time task with its run under way; a done task has none;
    * a name is reserved while the task lives or is deleted under a processing run. */
  ghost predicate TasksFitRuns(db: Db) {
    && (forall t :: t in db.tasks && db.tasks[t].state.InFlight? ==>
          db.tasks[t].schedule.Once? && HasActiveRun(db, t))
    && (forall t :: t in db.tasks && db.tasks[t].state.Done? ==> !HasActiveRun(db, t))
    && (forall t :: t in db.tasks ==>
          (db.tasks[t].nameReserved <==>
           LiveState(db.tasks[t]) || (db.tasks[t].state.Deleted? && HasProcessingRun(db, t))))
  }

  ghost predicate NamesUnique(db: Db) {
    forall a, b ::
      && a in db.tasks && b in db.tasks
      && db.tasks[a].nameReserved && db.tasks[b].nameReserved && db.tasks[a].name == db.tasks[b].name
      ==> a == b
  }

  ghost predicate CouplingInv(db: Db) {
    RunsFitTasks(db) && TasksFitRuns(db) && NamesUnique(db)
  }

  // ---------- one lemma per transaction ----------

  lemma StartKeepsCoupling(db: Db, r: RunId, task: TaskId, leaseUntil: Instant)
    requires CouplingInv(db)
    ensures CouplingInv(StartRun(db, r, task, leaseUntil))
  {
    var after := StartRun(db, r, task, leaseUntil);
    if MayStart(db, r, task) {
      assert after.runs[r].Active() && after.runs[r].status.Processing?;
      forall t | t in db.tasks ensures HasActiveRun(after, t) == HasActiveRun(db, t) {
        if HasActiveRun(db, t) {
          var x :| x in db.runs && db.runs[x].task == t && db.runs[x].Active();
          assert after.runs[x].task == t && after.runs[x].Active();
        }
      }
      forall t | t in db.tasks && HasProcessingRun(db, t) ensures HasProcessingRun(after, t) {
        var x :| x in db.runs && db.runs[x].task == t && db.runs[x].status.Processing?;
        assert after.runs[x].task == t && after.runs[x].status.Processing?;
      }
      forall t | t in db.tasks && t != db.runs[r].task && HasProcessingRun(after, t) ensures HasProcessingRun(db, t) {}
    }
  }

  lemma RunCallKeepsCoupling(db: Db, r: RunId, call: RunRows.Call, now: Instant)
    requires CouplingInv(db)
    ensures CouplingInv(Tables.RunCall(db, r, call, now))
  {
    var after := Tables.RunCall(db, r, call, now);
    SameRunsFit(db, after);
  }

  /** Calls change neither a run's task, occurrence nor status. */
  lemma SameRunsFit(db: Db, after: Db)
    requires CouplingInv(db) && after.tasks == db.tasks && after.runs.Keys == db.runs.Keys
    requires forall r :: r in db.runs ==>
               && after.runs[r].task == db.runs[r].task && after.runs[r].status == db.runs[r].status
               && after.runs[r].claimAttempt == db.runs[r].claimAttempt
               && after.runs[r].scheduledFor == db.runs[r].scheduledFor
    ensures CouplingInv(after)
  {
    forall t | t in db.tasks
      ensures HasActiveRun(after, t) == HasActiveRun(db, t)
      ensures HasProcessingRun(after, t) == HasProcessingRun(db, t)
    {
      SameStatuses(db, after, t);
    }
  }

  lemma SameStatuses(a: Db, b: Db, t: TaskId)
    requires a.runs.Keys == b.runs.Keys
    requires forall r :: r in a.runs ==> a.runs[r].task == b.runs[r].task && a.runs[r].status == b.runs[r].status
    ensures HasActiveRun(a, t) == HasActiveRun(b, t)
    ensures HasProcessingRun(a, t) == HasProcessingRun(b, t)
  {
    if HasActiveRun(a, t) {
      var r :| r in a.runs && a.runs[r].task == t && a.runs[r].Active();
      assert r in b.runs && b.runs[r].task == t && b.runs[r].Active();
    }
    if HasActiveRun(b, t) {
      var r :| r in b.runs && b.runs[r].task == t && b.runs[r].Active();
      assert r in a.runs && a.runs[r].task == t && a.runs[r].Active();
    }
    if HasProcessingRun(a, t) {
      var r :| r in a.runs && a.runs[r].task == t && a.runs[r].status.Processing?;
      assert r in b.runs && b.runs[r].task == t && b.runs[r].status.Processing?;
    }
    if HasProcessingRun(b, t) {
      var r :| r in b.runs && b.runs[r].task == t && b.runs[r].status.Processing?;
      assert r in a.runs && a.runs[r].task == t && a.runs[r].status.Processing?;
    }
  }

  /** Ending the processing run `r` of task `t` and leaving the task as `ended`. */
  function EndRun(db: Db, r: RunId, run: Run, ended: Task): Db
    requires r in db.runs
  {
    db.(runs := db.runs[r := run], tasks := db.tasks[db.runs[r].task := ended])
  }

  lemma EndKeepsCoupling(db: Db, r: RunId, run: Run, ended: Task)
    requires CouplingInv(db) && r in db.runs && db.runs[r].status.Processing?
    requires run.task == db.runs[r].task && run.claimAttempt == 1 && RunRows.Outcome(run.status)
    requires ended == TaskAfterFinish(db.tasks[run.task]) || ended == TaskAfterExpiry(db.tasks[run.task])
    ensures CouplingInv(EndRun(db, r, run, ended))
  {
    var after := EndRun(db, r, run, ended);
    var task := run.task;
    assert HasActiveRun(db, task) && HasProcessingRun(db, task);
    assert !HasActiveRun(after, task);
    assert !HasProcessingRun(after, task);
    forall t | t in db.tasks && t != task
      ensures HasActiveRun(after, t) == HasActiveRun(db, t)
      ensures HasProcessingRun(after, t) == HasProcessingRun(db, t)
    {
      if HasActiveRun(db, t) {
        var x :| x in db.runs && db.runs[x].task == t && db.runs[x].Active();
        assert after.runs[x].task == t && after.runs[x].Active();
      }
      if HasProcessingRun(db, t) {
        var x :| x in db.runs && db.runs[x].task == t && db.runs[x].status.Processing?;
        assert after.runs[x].task == t && after.runs[x].status.Processing?;
      }
    }
  }

  lemma CreateDueKeepsCoupling(db: Db, task: TaskId, expected: Instant, at: Instant, next: Option<Instant>,
                               newId: RunId, now: Instant)
    requires CouplingInv(db)
    ensures CouplingInv(Tables.CreateDue(db, task, expected, at, next, newId, now).0)
  {
    var (after, result) := Tables.CreateDue(db, task, expected, at, next, newId, now);
    if result.ActiveRun? {
      forall t | t in db.tasks
        ensures HasActiveRun(after, t) == HasActiveRun(db, t)
        ensures HasProcessingRun(after, t) == HasProcessingRun(db, t)
      {
        SameStatuses(db, after, t);
      }
    } else if result.Created? {
      assert after.runs[newId].task == task && after.runs[newId].Active();
      forall t | t in db.tasks
        ensures HasActiveRun(after, t) == (HasActiveRun(db, t) || t == task)
        ensures HasProcessingRun(after, t) == HasProcessingRun(db, t)
      {
        if HasActiveRun(db, t) {
          var x :| x in db.runs && db.runs[x].task == t && db.runs[x].Active();
          assert after.runs[x].task == t && after.runs[x].Active();
        }
        if HasProcessingRun(db, t) {
          var x :| x in db.runs && db.runs[x].task == t && db.runs[x].status.Processing?;
          assert after.runs[x].task == t && after.runs[x].status.Processing?;
        }
      }
    }
  }

  lemma CreateTaskKeepsCoupling(db: Db, id: TaskId, name: string, body: Revision, dueAt: Instant)
    requires CouplingInv(db)
    ensures CouplingInv(Tables.CreateTask(db, id, name, body, dueAt).0)
  {
    var (after, result) := Tables.CreateTask(db, id, name, body, dueAt);
    if result.Updated? {
      SameRunsSameActivity(db, after);
      assert forall b :: b in db.tasks && db.tasks[b].nameReserved ==> db.tasks[b].name != name;
    }
  }

  lemma SameRunsSameActivity(a: Db, b: Db)
    requires a.runs == b.runs
    ensures forall t :: HasActiveRun(a, t) == HasActiveRun(b, t)
    ensures forall t :: HasProcessingRun(a, t) == HasProcessingRun(b, t)
  {
  }

  lemma UpdateKeepsCoupling(db: Db, id: TaskId, expected: nat, changes: Changes)
    requires CouplingInv(db)
    ensures CouplingInv(Tables.Update(db, id, expected, changes).0)
  {
    var (after, result) := Tables.Update(db, id, expected, changes);
    if result.Updated? {
      forall t | t in after.tasks
        ensures HasActiveRun(after, t) == HasActiveRun(db, t)
        ensures HasProcessingRun(after, t) == HasProcessingRun(db, t)
      {
        SameStatuses(db, after, t);
      }
      forall b | b in db.tasks && b != id && db.tasks[b].nameReserved
        ensures db.tasks[b].name != after.tasks[id].name
      {
      }
    }
  }

  lemma StopKeepsCoupling(db: Db, id: TaskId, expected: nat, target: TaskState)
    requires CouplingInv(db) && (target.Paused? || target.Deleted?)
    ensures CouplingInv(Stop(db, id, expected, target).0)
  {
    var (after, result) := Stop(db, id, expected, target);
    if result.Updated? { CancelKeepsRuns(db, after, id); }
  }

  lemma CancelKeepsRuns(db: Db, after: Db, id: TaskId)
    requires after.runs == CancelQueued(db, id)
    ensures forall t :: HasProcessingRun(after, t) == HasProcessingRun(db, t)
    ensures forall t :: t != id ==> HasActiveRun(after, t) == HasActiveRun(db, t)
  {
    forall t
      ensures HasProcessingRun(after, t) == HasProcessingRun(db, t)
      ensures t != id ==> HasActiveRun(after, t) == HasActiveRun(db, t)
    {
      if HasProcessingRun(db, t) {
        var x :| x in db.runs && db.runs[x].task == t && db.runs[x].status.Processing?;
        assert after.runs[x].task == t && after.runs[x].status.Processing?;
      }
      if t != id && HasActiveRun(db, t) {
        var x :| x in db.runs && db.runs[x].task == t && db.runs[x].Active();
        assert after.runs[x].task == t && after.runs[x].Active();
      }
    }
  }

  lemma ResumeKeepsCoupling(db: Db, id: TaskId, expected: nat, next: Option<Instant>, now: Instant,
                            cancelled: Option<RunId>)
    requires CouplingInv(db) && CancelledChoice(db, id, cancelled)
    ensures CouplingInv(Tables.Resume(db, id, expected, next, now, cancelled).0)
  {
    var (after, result) := Tables.Resume(db, id, expected, next, now, cancelled);
    if result.Updated? {
      var rebind := db.tasks[id].schedule.Once? && cancelled.Some?;
      if rebind { RebindActivates(db, after, id, cancelled.value); } else { SameRunsSameActivity(db, after); }
    }
  }

  lemma RebindActivates(db: Db, after: Db, id: TaskId, r: RunId)
    requires r in db.runs && db.runs[r].task == id && db.runs[r].status.Cancelled?
    requires r in after.runs && after.runs == db.runs[r := after.runs[r]]
    requires after.runs[r].task == id && after.runs[r].status.Queued?
    ensures forall t :: HasProcessingRun(after, t) == HasProcessingRun(db, t)
    ensures forall t :: HasActiveRun(after, t) == (HasActiveRun(db, t) || t == id)
  {
    assert r in after.runs && after.runs[r].Active();
    forall t
      ensures HasProcessingRun(after, t) == HasProcessingRun(db, t)
      ensures HasActiveRun(after, t) == (HasActiveRun(db, t) || t == id)
    {
      if HasProcessingRun(db, t) {
        var x :| x in db.runs && db.runs[x].task == t && db.runs[x].status.Processing?;
        assert x in after.runs && after.runs[x].task == t && after.runs[x].status.Processing?;
      }
      if HasActiveRun(db, t) {
        var x :| x in db.runs && db.runs[x].task == t && db.runs[x].Active();
        assert x in after.runs && after.runs[x].task == t && after.runs[x].Active();
      }
    }
  }

  lemma StepKeepsCoupling(s: System, step: Step)
    requires Enabled(s, step) && CouplingInv(s.db)
    ensures CouplingInv(After(s, step).db)
  {
    if step.OnEvents() {
      EventStepsKeepCoupling(s, step);
    } else if step.OnTasks() {
      MutationKeepsCoupling(s.db, s.lock, step);
    } else {
      RunStepKeepsCoupling(s.db, s.lock, step);
    }
  }

  lemma RunStepKeepsCoupling(db: Db, lock: Option<Selection>, step: Step)
    requires Enabled(System(db, lock), step) && CouplingInv(db) && !step.OnEvents() && !step.OnTasks()
    ensures CouplingInv(RunsAfter(db, lock, step))
  {
    match step
    case CommitRun(leaseUntil) => StartKeepsCoupling(db, lock.value.run, lock.value.task, leaseUntil);
    case RunCall(r, call, now) => RunCallKeepsCoupling(db, r, call, now);
    case Finish(r, attempt, outcome, category) =>
      if r in db.runs && db.runs[r].OwnedBy(attempt) {
        EndKeepsCoupling(db, r, RunRows.Finish(db.runs[r], outcome, category), TaskAfterFinish(db.tasks[db.runs[r].task]));
      }
    case RecoverRun(r, now) =>
      if r in db.runs && RunRows.Expired(db.runs[r], now) {
        EndKeepsCoupling(db, r, RunRows.Expire(db.runs[r]), TaskAfterExpiry(db.tasks[db.runs[r].task]));
      }
    case CreateDue(task, expected, at, next, newRun, now) =>
      CreateDueKeepsCoupling(db, task, expected, at, next, newRun, now);
    case _ =>
  }

  lemma MutationKeepsCoupling(db: Db, lock: Option<Selection>, step: Step)
    requires Enabled(System(db, lock), step) && CouplingInv(db) && step.OnTasks()
    ensures CouplingInv(TasksAfter(db, lock, step))
  {
    match step
    case CreateTask(task, name, body, dueAt) => CreateTaskKeepsCoupling(db, task, name, body, dueAt);
    case Update(task, expected, changes) => UpdateKeepsCoupling(db, task, expected, changes);
    case Pause(task, expected) => StopKeepsCoupling(db, task, expected, Paused);
    case Delete(task, expected) => StopKeepsCoupling(db, task, expected, Deleted);
    case Resume(task, expected, next, now, cancelled) =>
      ResumeKeepsCoupling(db, task, expected, next, now, cancelled);
  }

  lemma EventStepsKeepCoupling(s: System, step: Step)
    requires Enabled(s, step) && CouplingInv(s.db)
    requires After(s, step).db.runs == s.db.runs && After(s, step).db.tasks == s.db.tasks
    ensures CouplingInv(After(s, step).db)
  {
    forall t | t in s.db.tasks
      ensures HasActiveRun(After(s, step).db, t) == HasActiveRun(s.db, t)
      ensures HasProcessingRun(After(s, step).db, t) == HasProcessingRun(s.db, t)
    {
      SameStatuses(s.db, After(s, step).db, t);
    }
  }

  lemma CouplingAlways(states: seq<System>, steps: seq<Step>, i: nat)
    requires IsRun(states, steps) && i < |states|
    ensures CouplingInv(states[i].db)
  {
    if i > 0 {
      CouplingAlways(states, steps, i - 1);
      assert states[i - 1 + 1] == After(states[i - 1], steps[i - 1]);
      StepKeepsCoupling(states[i - 1], steps[i - 1]);
    }
  }

  /** A released name is never reserved again by the same task, and done and deleted tasks stay so. */
  lemma ReleasedNamesStayReleased(s: System, step: Step, t: TaskId)
    requires Enabled(s, step) && CouplingInv(s.db) && t in s.db.tasks
    ensures t in After(s, step).db.tasks
    ensures !s.db.tasks[t].nameReserved ==> !After(s, step).db.tasks[t].nameReserved
    ensures s.db.tasks[t].state.Done? || s.db.tasks[t].state.Deleted?
            ==> After(s, step).db.tasks[t].state == s.db.tasks[t].state
  {
    if step.Finish? || step.RecoverRun? {
      EndedRunsReleaseNames(s, step, t);
    } else if step.OnTasks() {
      MutationsReleaseNames(s.db, s.lock, step, t);
    }
  }

  lemma MutationsReleaseNames(db: Db, lock: Option<Selection>, step: Step, t: TaskId)
    requires Enabled(System(db, lock), step) && CouplingInv(db) && t in db.tasks && step.OnTasks()
    ensures t in TasksAfter(db, lock, step).tasks
    ensures var u, v := db.tasks[t], TasksAfter(db, lock, step).tasks[t];
            && (!u.nameReserved ==> !v.nameReserved)
            && (u.state.Done? || u.state.Deleted? ==> v.state == u.state)
  {
  }

  lemma EndedRunsReleaseNames(s: System, step: Step, t: TaskId)
    requires Enabled(s, step) && CouplingInv(s.db) && t in s.db.tasks && (step.Finish? || step.RecoverRun?)
    ensures var u, v := s.db.tasks[t], After(s, step).db.tasks[t];
            && (!u.nameReserved ==> !v.nameReserved)
            && (u.state.Done? || u.state.Deleted? ==> v.state == u.state)
  {
    if step.run in s.db.runs && s.db.runs[step.run].status.Processing? {
      assert HasProcessingRun(s.db, s.db.runs[step.run].task) && HasActiveRun(s.db, s.db.runs[step.run].task);
    }
  }

  lemma ReleasedNamesStayReleasedForever(states: seq<System>, steps: seq<Step>, i: nat, j: nat, t: TaskId)
    requires IsRun(states, steps) && i <= j < |states|
    requires t in states[i].db.tasks && !states[i].db.tasks[t].nameReserved
    ensures t in states[j].db.tasks && !states[j].db.tasks[t].nameReserved
  {
    if i < j {
      ReleasedNamesStayReleasedForever(states, steps, i, j - 1, t);
      CouplingAlways(states, steps, j - 1);
      assert states[j - 1 + 1] == After(states[j - 1], steps[j - 1]);
      ReleasedNamesStayReleased(states[j - 1], steps[j - 1], t);
    }
  }

  // ---------- a scheduled run is claimed once ----------

  ghost predicate Claimed(db: Db, r: RunId) {
    r in db.runs && !db.runs[r].status.Queued? && !db.runs[r].status.Cancelled?
  }

  ghost predicate Ended(db: Db, r: RunId) { Claimed(db, r) && !db.runs[r].status.Processing? }

  /** A claimed run is never queued again, and an ended one keeps its outcome. */
  lemma StepKeepsClaimed(s: System, step: Step, r: RunId)
    requires Enabled(s, step) && Claimed(s.db, r)
    ensures Claimed(After(s, step).db, r)
    ensures Ended(s.db, r) ==> After(s, step).db.runs[r] == s.db.runs[r]
  {
  }

  lemma ClaimedForever(states: seq<System>, steps: seq<Step>, i: nat, j: nat, r: RunId)
    requires IsRun(states, steps) && i <= j < |states| && Claimed(states[i].db, r)
    ensures Claimed(states[j].db, r)
    ensures Ended(states[i].db, r) ==> states[j].db.runs[r] == states[i].db.runs[r]
  {
    if i < j {
      ClaimedForever(states, steps, i, j - 1, r);
      assert states[j - 1 + 1] == After(states[j - 1], steps[j - 1]);
      StepKeepsClaimed(states[j - 1], steps[j - 1], r);
    }
  }

  ghost predicate Starts(s: System, step: Step, r: RunId) {
    step.CommitRun? && s.lock.Some? && s.lock.value.run == r && MayStart(s.db, r, s.lock.value.task)
  }

  /** Over any run of the protocol a scheduled run is started at most once. */
  lemma RunsStartOnce(states: seq<System>, steps: seq<Step>, i: nat, j: nat, r: RunId)
    requires IsRun(states, steps) && i < j < |steps|
    requires Starts(states[i], steps[i], r)
    ensures !Starts(states[j], steps[j], r)
  {
    assert states[i + 1] == After(states[i], steps[i]);
    assert Claimed(states[i + 1].db, r);
    ClaimedForever(states, steps, i + 1, j, r);
  }
}

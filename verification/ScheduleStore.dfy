/** `PostgresScheduleStore`: what members do to scheduled tasks. A transaction builds the
  * new tables and commits them together, so one that throws has changed nothing. */
module ScheduleStore {
  import opened Records
  import opened Tables
  import Database
  import RunRows

  class ScheduleStore {
    const db: Database.Database

    constructor (db: Database.Database)
      ensures this.db == db
    {
      this.db := db;
    }

    /** The row of `readTask`: an instruction that is gone reads as empty. */
    function Read(id: TaskId): Revision
      requires id in db.tasks
      reads db
    {
      var t := db.tasks[id];
      var instruction := if (id, t.version) in db.revisions then db.revisions[(id, t.version)].instruction else "";
      Revision(instruction, t.schedule, t.target, ReadContext(t.context))
    }

    method Create(id: TaskId, name: string, body: Revision, nextDueAt: Instant) returns (result: Mutation)
      modifies db
      ensures (db.Contents(), result) == CreateTask(old(db.Contents()), id, name, body, nextDueAt)
      ensures result in {Updated, NameConflict, Thrown} && (!result.Updated? ==> db.Contents() == old(db.Contents()))
      ensures result.NameConflict? ==> Reserved(old(db.tasks), name, id)
      ensures result.Thrown? <==> id in old(db.tasks) || (id, 1) in old(db.revisions)
      ensures result.Updated? ==>
                && !Reserved(old(db.tasks), name, id)
                && db.tasks == old(db.tasks)[id := Task(name, 1, body.schedule, body.target, body.context, Active, true,
                                                        Some(nextDueAt), None)]
                && db.revisions == old(db.revisions)[(id, 1) := body]
                && db.runs == old(db.runs) && db.events == old(db.events)
    {
      if id in db.tasks || (id, 1) in db.revisions { return Thrown; }
      if NameTaken(db.Contents(), name, {}) { return NameConflict; }
      db.tasks := db.tasks[id := Task(name, 1, body.schedule, body.target, body.context, Active, true,
                                      Some(nextDueAt), None)];
      db.revisions := db.revisions[(id, 1) := body];
      result := Updated;
    }

    /** `queuedOld` is the version of the run that is still queued with an earlier body. */
    method UpdateTask(id: TaskId, expected: nat, changes: Changes) returns (result: Mutation, queuedOld: Option<nat>)
      modifies db
      ensures (db.Contents(), result) == Update(old(db.Contents()), id, expected, changes)
      ensures UpdateAnswers(old(db.Contents()), db.Contents(), id, expected, changes, result)
      ensures result.Updated? ==> TaskTakes(old(db.Contents()), db.Contents(), id, changes)
      ensures result.Updated? ==> RevisionTakes(old(db.Contents()), db.Contents(), id, changes)
      ensures queuedOld.None? <==> !result.Updated? || forall r :: r in db.runs ==> !Waits(db.runs[r], id)
      ensures queuedOld.Some? ==>
                exists r :: r in db.runs && FirstWaiting(db.runs, id, r) && db.runs[r].version == queuedOld.value
    {
      queuedOld := None;
      UpdateMeans(db.Contents(), id, expected, changes);
      if id !in db.tasks { return TaskNotFound, None; }
      var task := db.tasks[id];
      if task.version != expected { return VersionConflict, None; }
      if task.state.InFlight? { return PauseFirst, None; }
      if task.state.Done? || task.state.Deleted? { return InvalidState, None; }
      var queued := FindQueued(db.runs, id);
      var body := Revise(Read(id), changes);
      assert body == Revised(db.Contents(), id, changes);
      if body.instruction == "" { return Thrown, None; }
      var version := task.version + 1;
      if changes.name.Some? { task := task.(name := changes.name.value); }
      if changes.nextDueAt.Some? { task := task.(nextDueAt := changes.nextDueAt); }
      if task.nameReserved && NameTaken(db.Contents(), task.name, {id}) { return NameConflict, None; }
      if (id, version) in db.revisions { return Thrown, None; }
      db.tasks := db.tasks[id := task.(version := version, schedule := body.schedule, target := body.target,
                                       context := body.context)];
      db.revisions := db.revisions[(id, version) := body];
      result := Updated;
      if queued.Some? { queuedOld := Some(db.runs[queued.value].version); }
    }

    method Pause(id: TaskId, expected: nat) returns (result: Mutation)
      modifies db
      ensures (db.Contents(), result) == Stop(old(db.Contents()), id, expected, Paused)
    {
      result := Halt(id, expected, Paused);
    }

    method Delete(id: TaskId, expected: nat) returns (result: Mutation)
      modifies db
      ensures (db.Contents(), result) == Stop(old(db.Contents()), id, expected, Deleted)
    {
      result := Halt(id, expected, Deleted);
    }

    /** `transition` to `paused` or `deleted`. */
    method Halt(id: TaskId, expected: nat, target: TaskState) returns (result: Mutation)
      requires target.Paused? || target.Deleted?
      modifies db
      ensures (db.Contents(), result) == Stop(old(db.Contents()), id, expected, target)
      ensures !result.Updated? ==> db.Contents() == old(db.Contents())
      ensures result.TaskNotFound? <==> id !in old(db.tasks)
      ensures result.VersionConflict? <==> id in old(db.tasks) && old(db.tasks)[id].version != expected
      ensures result.InvalidState? <==> Asked(old(db.tasks), id, expected) && old(db.tasks)[id].state in {Done, TaskState.Deleted}
      ensures result in {Updated, TaskNotFound, VersionConflict, InvalidState, Thrown}
      ensures result.Thrown? ==>
                && Asked(old(db.tasks), id, expected)
                && (Bodiless(old(db.Contents()), id, None) || Reserved(old(db.tasks), old(db.tasks)[id].name, id)
                    || (id, old(db.tasks)[id].version + 1) in old(db.revisions))
      ensures result.Updated? ==>
                var t := old(db.tasks)[id];
                && t.state !in {Done, TaskState.Deleted} && !Bodiless(old(db.Contents()), id, None)
                && db.tasks == old(db.tasks)[id := t.(state := target, version := t.version + 1, nextDueAt := None,
                     nameReserved := target.Paused? || exists r :: r in old(db.runs) && old(db.runs)[r].task == id
                                                                   && old(db.runs)[r].status.Processing?)]
                && NextRevision(old(db.Contents()), db.revisions, id)
                && db.runs.Keys == old(db.runs).Keys && db.events == old(db.events)
      ensures result.Updated? ==> forall r :: r in old(db.runs) ==>
                db.runs[r] == if old(db.runs)[r].task == id && old(db.runs)[r].status.Queued?
                              then old(db.runs)[r].(status := RunStatus.Cancelled) else old(db.runs)[r]
    {
      if id !in db.tasks { return TaskNotFound; }
      var task := db.tasks[id];
      if task.version != expected { return VersionConflict; }
      if task.state.Done? || task.state.Deleted? { return InvalidState; }
      var version := task.version + 1;
      var processing := HasProcessingRun(db.Contents(), id);
      var nameReserved := !target.Deleted? || processing;
      if nameReserved && NameTaken(db.Contents(), task.name, {id}) { return Thrown; }
      var runs := CancelEach(db.runs, id);
      var body := Read(id);
      if body.instruction == "" || (id, version) in db.revisions { return Thrown; }
      CancelledRows(db.Contents(), id, runs);
      db.tasks := db.tasks[id := task.(state := target, version := version, nameReserved := nameReserved, nextDueAt := None)];
      db.runs := runs;
      db.revisions := db.revisions[(id, version) := body];
      result := Updated;
    }

    /** `transition` to `active`. The result is one of those that some latest cancelled run allows. */
    method ResumeTask(id: TaskId, expected: nat, nextDueAt: Option<Instant>, now: Instant) returns (result: Mutation)
      modifies db
      ensures exists cancelled ::
                CancelledChoice(old(db.Contents()), id, cancelled)
                && (db.Contents(), result) == Resume(old(db.Contents()), id, expected, nextDueAt, now, cancelled)
      ensures !result.Updated? ==> db.Contents() == old(db.Contents())
      ensures result.TaskNotFound? <==> id !in old(db.tasks)
      ensures result.VersionConflict? <==> id in old(db.tasks) && old(db.tasks)[id].version != expected
      ensures result in {Updated, TaskNotFound, VersionConflict, InvalidState, Thrown}
      ensures result.Thrown? ==>
                && Asked(old(db.tasks), id, expected)
                && (Bodiless(old(db.Contents()), id, None) || Reserved(old(db.tasks), old(db.tasks)[id].name, id)
                    || (id, old(db.tasks)[id].version + 1) in old(db.revisions)
                    || exists r :: r in old(db.runs) && old(db.runs)[r].task == id && old(db.runs)[r].Active())
      ensures Asked(old(db.tasks), id, expected) && !old(db.tasks)[id].state.Paused? ==> result.InvalidState?
      ensures result.InvalidState? ==>
                && Asked(old(db.tasks), id, expected)
                && (old(db.tasks)[id].state.Paused? ==>
                      && old(db.tasks)[id].schedule.Once? && (nextDueAt.None? || nextDueAt.value <= now)
                      && forall r :: r in old(db.runs) ==> !IsCancelled(old(db.runs), id, r))
      ensures result.Updated? ==> Resumed(old(db.Contents()), db.Contents(), id, nextDueAt)
    {
      ghost var was := db.Contents();
      var cancelled := FindCancelled(db.Contents(), id);
      result := ResumeWith(id, expected, nextDueAt, now, cancelled);
      assert CancelledChoice(was, id, cancelled);
      ResumeMeans(was, id, expected, nextDueAt, now, cancelled);
    }

    method ResumeWith(id: TaskId, expected: nat, nextDueAt: Option<Instant>, now: Instant, cancelled: Option<RunId>)
      returns (result: Mutation)
      requires CancelledChoice(db.Contents(), id, cancelled)
      modifies db
      ensures (db.Contents(), result) == Resume(old(db.Contents()), id, expected, nextDueAt, now, cancelled)
    {
      if id !in db.tasks { return TaskNotFound; }
      var task := db.tasks[id];
      if task.version != expected { return VersionConflict; }
      if !task.state.Paused? { return InvalidState; }
      var version := task.version + 1;
      var rebind := task.schedule.Once? && cancelled.Some?;
      if task.schedule.Once? && !rebind && (nextDueAt.None? || nextDueAt.value <= now) { return InvalidState; }
      if NameTaken(db.Contents(), task.name, {id}) { return Thrown; }
      var body := Read(id);
      if body.instruction == "" || (id, version) in db.revisions { return Thrown; }
      var runs := db.runs;
      if rebind {
        // the index on active runs refuses a second one
        if HasActiveRun(db.Contents(), id) { return Thrown; }
        var run := runs[cancelled.value];
        runs := runs[cancelled.value := run.(status := RunStatus.Queued, version := version,
                                             instruction := body.instruction, target := body.target,
                                             context := body.context, claimAttempt := 0, leasedUntil := None)];
        task := task.(state := InFlight, nextDueAt := None);
      } else {
        task := task.(state := Active);
        if nextDueAt.Some? { task := task.(nextDueAt := nextDueAt); }
      }
      db.tasks := db.tasks[id := task.(version := version, nameReserved := true)];
      db.runs := runs;
      db.revisions := db.revisions[(id, version) := body];
      result := Updated;
    }
  }

  // ---------- what the answers speak of ----------

  /** Another task holds the name. */
  ghost predicate Reserved(tasks: map<TaskId, Task>, name: string, id: TaskId) {
    exists t :: t in tasks && t != id && tasks[t].nameReserved && tasks[t].name == name
  }

  /** The member asked for the version that the task is at. */
  predicate Asked(tasks: map<TaskId, Task>, id: TaskId, expected: nat) { id in tasks && tasks[id].version == expected }

  /** There would be no instruction: neither a new one nor one in the current revision. */
  predicate Bodiless(db: Db, id: TaskId, instruction: Option<string>)
    requires id in db.tasks
  {
    if instruction.Some? then instruction.value == ""
    else (id, db.tasks[id].version) !in db.revisions || db.revisions[(id, db.tasks[id].version)].instruction == ""
  }

  /** One more revision, which repeats the task as it was; a context without a name is dropped. */
  ghost predicate NextRevision(was: Db, revisions: map<(TaskId, nat), Revision>, id: TaskId)
    requires id in was.tasks
  {
    var t, key := was.tasks[id], (id, was.tasks[id].version + 1);
    && key !in was.revisions && (id, t.version) in was.revisions
    && revisions == was.revisions[key := Revision(was.revisions[(id, t.version)].instruction, t.schedule, t.target,
                                                  if t.context.Some? && t.context.value.displayName == "" then None
                                                  else t.context)]
  }

  predicate IsCancelled(runs: map<RunId, Run>, id: TaskId, r: RunId)
    requires r in runs
  {
    runs[r].task == id && runs[r].status.Cancelled?
  }

  /** Of the cancelled runs of the task the one with the latest occurrence waits again, with the
    * body of the new version. */
  ghost predicate LatestRebound(was: Db, after: Db, id: TaskId, r: RunId)
    requires id in was.tasks
  {
    var version := was.tasks[id].version + 1;
    && r in was.runs && IsCancelled(was.runs, id, r) && (id, version) in after.revisions
    && (forall other :: other in was.runs && IsCancelled(was.runs, id, other)
                        ==> was.runs[other].scheduledFor <= was.runs[r].scheduledFor)
    && var body := after.revisions[(id, version)];
       after.runs == was.runs[r := was.runs[r].(status := RunStatus.Queued, version := version,
         instruction := body.instruction, target := body.target, context := body.context, claimAttempt := 0,
         leasedUntil := None)]
  }

  /** The task is live again. A cancelled run of a one-time task is queued again; otherwise the
    * runs stay. */
  ghost predicate Resumed(was: Db, after: Db, id: TaskId, nextDueAt: Option<Instant>)
    requires id in was.tasks
  {
    var t := was.tasks[id];
    && t.state.Paused? && !Bodiless(was, id, None) && NextRevision(was, after.revisions, id) && after.events == was.events
    && if t.schedule.Once? && exists r :: r in was.runs && IsCancelled(was.runs, id, r)
       then
         && after.tasks == was.tasks[id := t.(state := InFlight, version := t.version + 1, nameReserved := true,
              nextDueAt := None)]
         && exists r :: LatestRebound(was, after, id, r)
       else
         && after.runs == was.runs
         && after.tasks == was.tasks[id := t.(state := Active, version := t.version + 1, nameReserved := true,
              nextDueAt := if nextDueAt.Some? then nextDueAt else t.nextDueAt)]
  }

  lemma ResumeMeans(was: Db, id: TaskId, expected: nat, nextDueAt: Option<Instant>, now: Instant, cancelled: Option<RunId>)
    requires CancelledChoice(was, id, cancelled)
    ensures var (after, result) := Resume(was, id, expected, nextDueAt, now, cancelled);
            result.Updated? ==> Resumed(was, after, id, nextDueAt)
  {
    var (after, result) := Resume(was, id, expected, nextDueAt, now, cancelled);
    if result.Updated? && was.tasks[id].schedule.Once? && cancelled.Some? {
      assert LatestRebound(was, after, id, cancelled.value);
    }
  }

  /** Which answer a member gets. */
  ghost predicate UpdateAnswers(was: Db, after: Db, id: TaskId, expected: nat, changes: Changes, result: Mutation) {
    && (!result.Updated? ==> after == was)
    && (result.TaskNotFound? <==> id !in was.tasks)
    && (result.VersionConflict? <==> id in was.tasks && was.tasks[id].version != expected)
    && (result.PauseFirst? <==> Asked(was.tasks, id, expected) && was.tasks[id].state.InFlight?)
    && (result.InvalidState? <==> Asked(was.tasks, id, expected) && was.tasks[id].state in {Done, TaskState.Deleted})
    && (result.NameConflict? ==>
          && Asked(was.tasks, id, expected) && was.tasks[id].nameReserved
          && Reserved(was.tasks, if changes.name.Some? then changes.name.value else was.tasks[id].name, id))
    && (result.Thrown? ==>
          && Asked(was.tasks, id, expected)
          && (Bodiless(was, id, changes.instruction) || (id, was.tasks[id].version + 1) in was.revisions))
    && (result.Updated? ==>
          && was.tasks[id].state in {TaskState.Active, TaskState.Paused} && !Bodiless(was, id, changes.instruction)
          && id in after.tasks && !(was.tasks[id].nameReserved && Reserved(was.tasks, after.tasks[id].name, id)))
  }

  /** The row holds the requested value where one was given and the current one otherwise. */
  ghost predicate TaskTakes(was: Db, after: Db, id: TaskId, changes: Changes)
    requires id in was.tasks && id in after.tasks
  {
    var t, t' := was.tasks[id], after.tasks[id];
    && after.tasks == was.tasks[id := t'] && after.runs == was.runs && after.events == was.events
    && t'.version == t.version + 1
    && t'.name == (if changes.name.Some? then changes.name.value else t.name)
    && t'.schedule == (if changes.schedule.Some? then changes.schedule.value else t.schedule)
    && t'.target == (if changes.target.Some? then changes.target.value else t.target)
    && t'.context == (if changes.context.Some? then changes.context.value
                      else if t.context.Some? && t.context.value.displayName == "" then None else t.context)
    && t'.nextDueAt == (if changes.nextDueAt.Some? then changes.nextDueAt else t.nextDueAt)
    && t'.state == t.state && t'.nameReserved == t.nameReserved && t'.latestMissedAt == t.latestMissedAt
  }

  /** So does the one new revision, and the older ones stay. */
  ghost predicate RevisionTakes(was: Db, after: Db, id: TaskId, changes: Changes)
    requires id in was.tasks && id in after.tasks
  {
    var t, t', key := was.tasks[id], after.tasks[id], (id, was.tasks[id].version + 1);
    && key !in was.revisions && key in after.revisions
    && after.revisions == was.revisions[key := after.revisions[key]]
    && (if changes.instruction.Some? then after.revisions[key].instruction == changes.instruction.value
        else (id, t.version) in was.revisions
             && after.revisions[key].instruction == was.revisions[(id, t.version)].instruction)
    && after.revisions[key].schedule == t'.schedule && after.revisions[key].target == t'.target
    && after.revisions[key].context == t'.context
  }

  lemma UpdateMeans(was: Db, id: TaskId, expected: nat, changes: Changes)
    ensures var (after, result) := Update(was, id, expected, changes);
            && UpdateAnswers(was, after, id, expected, changes, result)
            && (result.Updated? ==> TaskTakes(was, after, id, changes) && RevisionTakes(was, after, id, changes))
  {
  }

  /** The body after the changes; what is not changed is as it was read. */
  method Revise(read: Revision, changes: Changes) returns (body: Revision)
    ensures body == Revision(Or(changes.instruction, read.instruction), Or(changes.schedule, read.schedule),
                             Or(changes.target, read.target), Or(changes.context, read.context))
  {
    body := read;
    if changes.instruction.Some? { body := body.(instruction := changes.instruction.value); }
    if changes.schedule.Some? { body := body.(schedule := changes.schedule.value); }
    if changes.target.Some? { body := body.(target := changes.target.value); }
    if changes.context.Some? { body := body.(context := changes.context.value); }
  }

  /** The select of the latest cancelled run. */
  method FindCancelled(tables: Db, id: TaskId) returns (cancelled: Option<RunId>)
    ensures CancelledChoice(tables, id, cancelled)
  {
    var candidates := set r | r in tables.runs && tables.runs[r].task == id && tables.runs[r].status.Cancelled?;
    if candidates == {} {
      forall r | r in tables.runs && tables.runs[r].task == id ensures !tables.runs[r].status.Cancelled? {
        assert r !in candidates;
      }
      return None;
    }
    var last := Database.LatestRun(tables.runs, candidates);
    assert last in candidates;
    forall r | r in tables.runs && tables.runs[r].task == id && tables.runs[r].status.Cancelled?
      ensures tables.runs[r].scheduledFor <= tables.runs[last].scheduledFor
    {
      assert r in candidates;
    }
    cancelled := Some(last);
  }

  /** `where schedule_id = … and status = 'queued' order by scheduled_for limit 1`. */
  predicate FirstWaiting(runs: map<RunId, Run>, task: TaskId, r: RunId)
    requires r in runs
  {
    && Waits(runs[r], task)
    && forall other :: other in runs && Waits(runs[other], task) ==> runs[r].scheduledFor <= runs[other].scheduledFor
  }

  method FindQueued(runs: map<RunId, Run>, task: TaskId) returns (queued: Option<RunId>)
    ensures queued.None? <==> forall r :: r in runs ==> !Waits(runs[r], task)
    ensures queued.Some? ==> queued.value in runs && FirstWaiting(runs, task, queued.value)
  {
    var candidates := set r | r in runs && Waits(runs[r], task);
    assert forall r :: r in candidates <==> r in runs && Waits(runs[r], task);
    if candidates == {} { return None; }
    var first := Database.EarliestRun(runs, candidates);
    queued := Some(first);
  }

  predicate Waits(run: Run, task: TaskId) { run.task == task && run.status.Queued? }

  ghost predicate Cancelling(a: map<RunId, Run>, b: map<RunId, Run>, left: set<RunId>, task: TaskId) {
    && (forall r :: r in b <==> r in a)
    && forall r :: r in a ==> b[r] == if Waits(a[r], task) && r !in left then RunRows.Cancel(a[r]) else a[r]
  }

  /** `update scheduled_runs set status = 'cancelled'` for the queued runs of a task. */
  method CancelEach(rows: map<RunId, Run>, task: TaskId) returns (after: map<RunId, Run>)
    ensures Cancelling(rows, after, {}, task)
  {
    after := rows;
    var left := set r | r in rows && Waits(rows[r], task);
    while left != {}
      invariant left <= rows.Keys && (forall r :: r in left ==> Waits(rows[r], task))
      invariant Cancelling(rows, after, left, task)
      decreases |left|
    {
      var id := Database.Choose(left);
      assert id in rows && id in after;
      after := after[id := after[id].(status := RunStatus.Cancelled)];
      left := left - {id};
    }
  }

  lemma CancelledRows(db: Db, task: TaskId, rows: map<RunId, Run>)
    requires Cancelling(db.runs, rows, {}, task)
    ensures rows == CancelQueued(db, task)
  {
    var after := CancelQueued(db, task);
    assert forall r :: r in rows <==> r in after;
    assert rows.Keys == after.Keys;
    assert forall r :: r in after ==> after[r] == rows[r];
  }
}

/** The revision log, and the copies of it that runs carry. */
module Frozen {
  import opened Records
  import opened Tables
  import opened Protocol

  /** The log of a task holds exactly the versions 1 to the current one. */
  ghost predicate LogComplete(db: Db) {
    && (forall key :: key in db.revisions ==> key.0 in db.tasks)
    && (forall t, v: nat :: t in db.tasks ==> ((t, v) in db.revisions <==> 1 <= v <= db.tasks[t].version))
    && (forall t :: t in db.tasks ==> 1 <= db.tasks[t].version)
  }

  /** The task row repeats its current revision. */
  predicate TaskMatches(db: Db, t: TaskId)
    requires t in db.tasks
  {
    && (t, db.tasks[t].version) in db.revisions
    && var body := db.revisions[(t, db.tasks[t].version)];
       body.schedule == db.tasks[t].schedule && body.target == db.tasks[t].target
       && body.context == db.tasks[t].context
  }

  /** The run carries the body of the revision it names. */
  predicate RunMatches(db: Db, r: RunId)
    requires r in db.runs
  {
    var run := db.runs[r];
    && (run.task, run.version) in db.revisions
    && var body := db.revisions[(run.task, run.version)];
       run.instruction == body.instruction && run.target == body.target && run.context == body.context
  }

  ghost predicate FrozenInv(db: Db) {
    && LogComplete(db)
    && (forall t :: t in db.tasks ==> TaskMatches(db, t) && Named(db.tasks[t].context))
    && (forall r :: r in db.runs ==> RunMatches(db, r))
  }

  /** Assumption of one step: a context that is written has a display name. */
  predicate NamesContext(step: Step) {
    match step
    case CreateTask(_, _, body, _) => Named(body.context)
    case Update(_, _, changes) => changes.context.Some? ==> Named(changes.context.value)
    case _ => true
  }

  // ---------- one lemma per transaction ----------

  predicate SameBody(a: Run, b: Run) {
    a.task == b.task && a.version == b.version && a.instruction == b.instruction && a.target == b.target
    && a.context == b.context
  }

  /** No run is new and none was rebound. */
  ghost predicate SameRuns(a: Db, b: Db) {
    forall r :: r in b.runs ==> r in a.runs && SameBody(a.runs[r], b.runs[r])
  }

  predicate SameDefinition(a: Task, b: Task) {
    a.version == b.version && a.schedule == b.schedule && a.target == b.target && a.context == b.context
  }

  lemma UnchangedDefinitionsKeepFrozen(a: Db, b: Db)
    requires FrozenInv(a) && a.revisions == b.revisions && SameRuns(a, b)
    requires a.tasks.Keys == b.tasks.Keys
    requires forall t :: t in a.tasks ==> SameDefinition(a.tasks[t], b.tasks[t])
    ensures FrozenInv(b)
  {
    forall t | t in b.tasks ensures TaskMatches(b, t) && Named(b.tasks[t].context) { assert TaskMatches(a, t); }
    forall r | r in b.runs ensures RunMatches(b, r) { assert RunMatches(a, r); }
  }

  /** A task `id` that moved to a new version, with the revision that says so. */
  ghost predicate NewVersion(a: Db, b: Db, id: TaskId) {
    && id in b.tasks && b.tasks[id].version >= 1
    && (id, b.tasks[id].version) !in a.revisions
    && TaskMatches(b, id) && Named(b.tasks[id].context)
    && b.revisions == a.revisions[(id, b.tasks[id].version) := b.revisions[(id, b.tasks[id].version)]]
    && b.tasks == a.tasks[id := b.tasks[id]]
    && b.tasks[id].version == (if id in a.tasks then a.tasks[id].version + 1 else 1)
  }

  lemma NewVersionKeepsFrozen(a: Db, b: Db, id: TaskId)
    requires FrozenInv(a) && NewVersion(a, b, id)
    requires forall r :: r in b.runs ==> (r in a.runs && SameBody(a.runs[r], b.runs[r])) || RunMatches(b, r)
    ensures FrozenInv(b)
  {
    forall t | t in b.tasks ensures TaskMatches(b, t) && Named(b.tasks[t].context) {
      if t != id { assert TaskMatches(a, t); }
    }
    forall r | r in b.runs ensures RunMatches(b, r) {
      if r in a.runs && SameBody(a.runs[r], b.runs[r]) { assert RunMatches(a, r); }
    }
  }

  lemma CreateDueKeepsFrozen(db: Db, task: TaskId, expected: Instant, at: Instant, next: Option<Instant>,
                             newId: RunId, now: Instant)
    requires FrozenInv(db)
    ensures FrozenInv(Tables.CreateDue(db, task, expected, at, next, newId, now).0)
  {
    var (after, result) := Tables.CreateDue(db, task, expected, at, next, newId, now);
    if result.Created? {
      assert TaskMatches(db, task);
      forall t | t in after.tasks ensures TaskMatches(after, t) && Named(after.tasks[t].context) {
        assert TaskMatches(db, t);
      }
      forall r | r in after.runs ensures RunMatches(after, r) {
        if r != newId { assert RunMatches(db, r); }
      }
    } else {
      UnchangedDefinitionsKeepFrozen(db, after);
    }
  }

  lemma CreateTaskKeepsFrozen(db: Db, id: TaskId, name: string, body: Revision, dueAt: Instant)
    requires FrozenInv(db) && Named(body.context)
    ensures FrozenInv(Tables.CreateTask(db, id, name, body, dueAt).0)
  {
    var (after, result) := Tables.CreateTask(db, id, name, body, dueAt);
    if result.Updated? {
      assert after.tasks == db.tasks[id := after.tasks[id]];
      NewVersionKeepsFrozen(db, after, id);
    }
  }

  lemma UpdateKeepsFrozen(db: Db, id: TaskId, expected: nat, changes: Changes)
    requires FrozenInv(db) && (changes.context.Some? ==> Named(changes.context.value))
    ensures FrozenInv(Tables.Update(db, id, expected, changes).0)
  {
    var (after, result) := Tables.Update(db, id, expected, changes);
    if result.Updated? {
      assert after.tasks == db.tasks[id := after.tasks[id]];
      NewVersionKeepsFrozen(db, after, id);
    }
  }

  lemma StopKeepsFrozen(db: Db, id: TaskId, expected: nat, target: TaskState)
    requires FrozenInv(db) && (target.Paused? || target.Deleted?)
    ensures FrozenInv(Stop(db, id, expected, target).0)
  {
    var (after, result) := Stop(db, id, expected, target);
    if result.Updated? {
      assert TaskMatches(db, id);
      assert after.tasks == db.tasks[id := after.tasks[id]];
      NewVersionKeepsFrozen(db, after, id);
    }
  }

  lemma ResumeKeepsFrozen(db: Db, id: TaskId, expected: nat, next: Option<Instant>, now: Instant,
                          cancelled: Option<RunId>)
    requires FrozenInv(db) && CancelledChoice(db, id, cancelled)
    ensures FrozenInv(Tables.Resume(db, id, expected, next, now, cancelled).0)
  {
    var (after, result) := Tables.Resume(db, id, expected, next, now, cancelled);
    if result.Updated? {
      assert TaskMatches(db, id);
      assert after.tasks == db.tasks[id := after.tasks[id]];
      NewVersionKeepsFrozen(db, after, id);
    }
  }

  predicate Redefines(step: Step) {
    step.CreateDue? || step.CreateTask? || step.Update? || step.Pause? || step.Delete? || step.Resume?
  }

  lemma OtherStepsKeepDefinitions(s: System, step: Step)
    requires Enabled(s, step) && !Redefines(step)
    ensures s.db.revisions == After(s, step).db.revisions && SameRuns(s.db, After(s, step).db)
    ensures s.db.tasks.Keys == After(s, step).db.tasks.Keys
    ensures forall t :: t in s.db.tasks ==> SameDefinition(s.db.tasks[t], After(s, step).db.tasks[t])
  {
    if !step.OnEvents() { RunStepsKeepDefinitions(s.db, s.lock, step); }
  }

  lemma RunStepsKeepDefinitions(db: Db, lock: Option<Selection>, step: Step)
    requires Enabled(System(db, lock), step) && !step.OnEvents() && !Redefines(step)
    ensures var after := RunsAfter(db, lock, step);
            && db.revisions == after.revisions && SameRuns(db, after) && db.tasks.Keys == after.tasks.Keys
            && forall t :: t in db.tasks ==> SameDefinition(db.tasks[t], after.tasks[t])
  {
  }

  lemma StepKeepsFrozen(s: System, step: Step)
    requires Enabled(s, step) && FrozenInv(s.db) && NamesContext(step)
    ensures FrozenInv(After(s, step).db)
  {
    match step
    case CreateDue(task, expected, at, next, newRun, now) =>
      CreateDueKeepsFrozen(s.db, task, expected, at, next, newRun, now);
    case CreateTask(task, name, body, dueAt) => CreateTaskKeepsFrozen(s.db, task, name, body, dueAt);
    case Update(task, expected, changes) => UpdateKeepsFrozen(s.db, task, expected, changes);
    case Pause(task, expected) => StopKeepsFrozen(s.db, task, expected, Paused);
    case Delete(task, expected) => StopKeepsFrozen(s.db, task, expected, Deleted);
    case Resume(task, expected, next, now, cancelled) =>
      ResumeKeepsFrozen(s.db, task, expected, next, now, cancelled);
    case _ =>
      OtherStepsKeepDefinitions(s, step);
      UnchangedDefinitionsKeepFrozen(s.db, After(s, step).db);
  }

  ghost predicate AllNamed(steps: seq<Step>) {
    forall i :: 0 <= i < |steps| ==> NamesContext(steps[i])
  }

  /** In every reachable state the revision log is complete, every task repeats its
    * current revision, and every run carries the revision it was frozen from. */
  lemma FrozenAlways(states: seq<System>, steps: seq<Step>, i: nat)
    requires IsRun(states, steps) && AllNamed(steps) && i < |states|
    ensures FrozenInv(states[i].db)
  {
    if i > 0 {
      FrozenAlways(states, steps, i - 1);
      assert states[i - 1 + 1] == After(states[i - 1], steps[i - 1]);
      StepKeepsFrozen(states[i - 1], steps[i - 1]);
    }
  }

  /** The naming assumption is exact: stopping a task keeps its row equal to its revision
    * if and only if its context is absent or named. */
  lemma StopKeepsTaskMatching(db: Db, id: TaskId, expected: nat, target: TaskState)
    requires target.Paused? || target.Deleted?
    requires id in db.tasks && Stop(db, id, expected, target).1.Updated?
    ensures TaskMatches(Stop(db, id, expected, target).0, id) <==> Named(db.tasks[id].context)
  {
  }

  /** At a concrete input: a task whose context has an empty display name is paused. */
  lemma UnnamedContextIsLost()
    ensures var body := Revision("report", Once(50, "UTC"), Target(1, "home", Group), Some(Context(2, "")));
            var task := Task("task", 1, body.schedule, body.target, body.context, Active, true, Some(50), None);
            var db := Db(map[], map[], map[1 := task], map[(1, 1) := body]);
            TaskMatches(db, 1) && Stop(db, 1, 1, Paused).1.Updated? && !TaskMatches(Stop(db, 1, 1, Paused).0, 1)
  {
  }

  ghost predicate StaysFrozen(a: Run, b: Run, resumed: bool) {
    && a.task == b.task && a.scheduledFor == b.scheduledFor
    && ((a.status.Cancelled? && resumed)
        || (a.version == b.version && a.instruction == b.instruction && a.target == b.target && a.context == b.context))
  }

  /** Nothing rewrites what a run was frozen with, except rebinding a cancelled run. */
  lemma RunsStayFrozen(s: System, step: Step, r: RunId)
    requires Enabled(s, step) && r in s.db.runs
    ensures r in After(s, step).db.runs
    ensures StaysFrozen(s.db.runs[r], After(s, step).db.runs[r], step.Resume?)
  {
    if step.OnTasks() { TaskStepsKeepBodies(s.db, s.lock, step, r); }
  }

  lemma TaskStepsKeepBodies(db: Db, lock: Option<Selection>, step: Step, r: RunId)
    requires Enabled(System(db, lock), step) && step.OnTasks() && r in db.runs
    ensures r in TasksAfter(db, lock, step).runs
    ensures StaysFrozen(db.runs[r], TasksAfter(db, lock, step).runs[r], step.Resume?)
  {
  }

  // ---------- optimistic versions ----------

  /** The step is a member's mutation of `t` that was made for version `expected`. */
  predicate Mutates(step: Step, t: TaskId, expected: nat) {
    (step.Update? || step.Pause? || step.Delete? || step.Resume?) && step.task == t && step.expected == expected
  }

  /** The mutation went through: it left a new revision behind. */
  ghost predicate Succeeds(s: System, step: Step)
    requires Enabled(s, step)
  {
    After(s, step).db.revisions != s.db.revisions
  }

  lemma VersionsOnlyGrow(states: seq<System>, steps: seq<Step>, i: nat, j: nat, t: TaskId)
    requires IsRun(states, steps) && i <= j < |states| && t in states[i].db.tasks
    ensures t in states[j].db.tasks && states[i].db.tasks[t].version <= states[j].db.tasks[t].version
  {
    if i < j {
      VersionsOnlyGrow(states, steps, i, j - 1, t);
      assert states[j - 1 + 1] == After(states[j - 1], steps[j - 1]);
      VersionGrows(states[j - 1], steps[j - 1], t);
    }
  }

  lemma VersionGrows(s: System, step: Step, t: TaskId)
    requires Enabled(s, step) && t in s.db.tasks
    ensures t in After(s, step).db.tasks && s.db.tasks[t].version <= After(s, step).db.tasks[t].version
  {
    if step.OnTasks() { MutationGrowsVersion(s.db, s.lock, step, t); }
  }

  lemma MutationGrowsVersion(db: Db, lock: Option<Selection>, step: Step, t: TaskId)
    requires Enabled(System(db, lock), step) && step.OnTasks() && t in db.tasks
    ensures t in TasksAfter(db, lock, step).tasks && db.tasks[t].version <= TasksAfter(db, lock, step).tasks[t].version
  {
  }

  /** Of all mutations of a task made for one version, at most one goes through. */
  lemma OneMutationPerVersion(states: seq<System>, steps: seq<Step>, i: nat, j: nat, t: TaskId, expected: nat)
    requires IsRun(states, steps) && i < j < |steps|
    requires Mutates(steps[i], t, expected) && Mutates(steps[j], t, expected)
    requires Succeeds(states[i], steps[i])
    ensures !Succeeds(states[j], steps[j])
    ensures After(states[j], steps[j]).db == states[j].db
  {
    assert states[i + 1] == After(states[i], steps[i]);
    assert t in states[i + 1].db.tasks && states[i + 1].db.tasks[t].version == expected + 1;
    VersionsOnlyGrow(states, steps, i + 1, j, t);
  }
}

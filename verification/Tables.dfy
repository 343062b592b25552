/** The transactions of the event, run and schedule stores, as functions on the
  * contents of their tables. A transaction that throws leaves the tables unchanged. */
module Tables {
  import opened Records
  import EventRows
  import RunRows

  const ADMISSION_CONCURRENCY := 4

  datatype Db = Db(
    events: map<EventId, Event>,
    runs: map<RunId, Run>,
    tasks: map<TaskId, Task>,
    revisions: map<(TaskId, nat), Revision>)

  const EMPTY := Db(map[], map[], map[], map[])

  function ProcessingEvents(db: Db): set<EventId> {
    set id | id in db.events && db.events[id].status.Processing?
  }

  function ProcessingRuns(db: Db): set<RunId> {
    set id | id in db.runs && db.runs[id].status.Processing?
  }

  // ---------- admission of messages ----------

  function Enqueue(db: Db, id: EventId, conversation: ChatId, unsupported: bool, at: Instant): Db {
    if id in db.events then db
    else db.(events := db.events[id := EventRows.Fresh(conversation, unsupported, at)])
  }

  /** `conversation_position = 1`: first among the active events of its conversation. */
  predicate IsHead(db: Db, id: EventId)
    requires id in db.events
  {
    forall other :: other in db.events && other != id && db.events[other].Active()
                    && db.events[other].conversation == db.events[id].conversation
                    ==> Before(id, db.events[id], other, db.events[other])
  }

  predicate RunsIn(db: Db, chat: ChatId) {
    exists r :: r in db.runs && db.runs[r].status.Processing? && db.runs[r].target.chat == chat
  }

  predicate Claimable(db: Db, id: EventId, now: Instant) {
    && id in db.events
    && IsHead(db, id)
    && db.events[id].status.Queued?
    && db.events[id].nextAttemptAt <= now
    && !RunsIn(db, db.events[id].conversation)
  }

  function Slots(db: Db): nat {
    Max(0, ADMISSION_CONCURRENCY - |ProcessingEvents(db)| - |ProcessingRuns(db)|)
  }

  function ClaimRows(db: Db, batch: set<EventId>, leaseUntil: Instant): Db {
    db.(events := map id | id in db.events ::
      if id in batch then EventRows.Claim(db.events[id], leaseUntil) else db.events[id])
  }

  // ---------- calls on one event row, and lease recovery ----------

  function EventCall(db: Db, id: EventId, call: EventRows.Call, now: Instant): Db {
    if id in db.events && EventRows.Accepts(db.events[id], call)
    then db.(events := db.events[id := EventRows.Apply(db.events[id], call, now)])
    else db
  }

  predicate ExpiredBatch(db: Db, batch: set<EventId>, now: Instant) {
    forall id :: id in batch ==> id in db.events && EventRows.Expired(db.events[id], now)
  }

  function ExpireRows(db: Db, batch: set<EventId>, now: Instant): Db {
    db.(events := map id | id in db.events ::
      if id in batch then EventRows.Expire(db.events[id], now) else db.events[id])
  }

  // ---------- scheduled runs ----------

  predicate HasActiveRun(db: Db, task: TaskId) {
    exists r :: r in db.runs && db.runs[r].task == task && db.runs[r].Active()
  }

  predicate HasProcessingRun(db: Db, task: TaskId) {
    exists r :: r in db.runs && db.runs[r].task == task && db.runs[r].status.Processing?
  }

  /** The unique index on (schedule, occurrence). */
  predicate OccurrenceTaken(db: Db, task: TaskId, at: Instant) {
    exists r :: r in db.runs && db.runs[r].task == task && db.runs[r].scheduledFor == at
  }

  datatype DueResult = Created(run: RunId) | NotFound | NotDue | Inactive | ActiveRun | Aborted

  function NewRun(db: Db, task: TaskId, scheduledFor: Instant, instruction: string, now: Instant): Run
    requires task in db.tasks
  {
    var t := db.tasks[task];
    Run(task, scheduledFor, now, t.version, instruction, t.target, t.context, RunStatus.Queued, 0,
        None, None, None, None, None, None, None)
  }

  function Instruction(db: Db, task: TaskId, version: nat): Option<string> {
    if (task, version) in db.revisions then Some(db.revisions[(task, version)].instruction) else None
  }

  /** `createDue`: run the occurrence, or fold it into the latest missed one. */
  function CreateDue(db: Db, task: TaskId, expectedDueAt: Instant, scheduledFor: Instant,
                     nextDueAt: Option<Instant>, newId: RunId, now: Instant): (Db, DueResult)
  {
    if task !in db.tasks then (db, NotFound)
    else
      var t := db.tasks[task];
      if !t.state.Active? then (db, Inactive)
      else if t.nextDueAt != Some(expectedDueAt) then (db, NotDue)
      else if HasActiveRun(db, task) then
        var missed := if t.latestMissedAt.Some? then Max(t.latestMissedAt.value, scheduledFor) else scheduledFor;
        var due := if nextDueAt.Some? then nextDueAt else t.nextDueAt;
        (db.(tasks := db.tasks[task := t.(latestMissedAt := Some(missed), nextDueAt := due)]), ActiveRun)
      else
        var instruction := Instruction(db, task, t.version);
        if instruction.None? || instruction.value == "" then (db, Aborted)
        else if newId in db.runs || OccurrenceTaken(db, task, scheduledFor) then (db, Aborted)
        else
          var once := t.schedule.Once?;
          (db.(runs := db.runs[newId := NewRun(db, task, scheduledFor, instruction.value, now)],
          tasks := db.tasks[task := t.(state := if once then InFlight else Active,
          nextDueAt := if once then None else nextDueAt,
          latestMissedAt := None)]),
          Created(newId))
  }

  /** The `where` clause of the select in `claimNext`. */
  predicate ReadyRun(db: Db, r: RunId, now: Instant) {
    && r in db.runs && db.runs[r].status.Queued?
    && ProcessingRuns(db) == {}
    && |ProcessingEvents(db)| + |ProcessingRuns(db)| < ADMISSION_CONCURRENCY
    && (forall e :: e in db.events && db.events[e].status.Queued? ==> now < db.events[e].nextAttemptAt)
    && (forall e :: e in db.events && db.events[e].status.Processing?
                    ==> db.events[e].conversation != db.runs[r].target.chat)
  }

  predicate RunFirst(a: Run, b: Run) {
    a.scheduledFor < b.scheduledFor || (a.scheduledFor == b.scheduledFor && a.createdAt <= b.createdAt)
  }

  /** The row the select returns: ready, and first by occurrence and creation. */
  predicate NextRun(db: Db, r: RunId, now: Instant) {
    && ReadyRun(db, r, now)
    && forall other :: other in db.runs && ReadyRun(db, other, now) ==> RunFirst(db.runs[r], db.runs[other])
  }

  predicate MayStart(db: Db, r: RunId, task: TaskId) {
    && task in db.tasks && (db.tasks[task].state.Active? || db.tasks[task].state.InFlight?)
    && r in db.runs && db.runs[r].status.Queued?
  }

  /** The second half of `claimNext`, after the task row is locked. */
  function StartRun(db: Db, r: RunId, task: TaskId, leaseUntil: Instant): Db {
    if MayStart(db, r, task)
    then db.(runs := db.runs[r := RunRows.Claim(db.runs[r], leaseUntil)])
    else db
  }

  function RunCall(db: Db, r: RunId, call: RunRows.Call, now: Instant): Db {
    if r in db.runs && RunRows.Accepts(db.runs[r], call, now)
    then db.(runs := db.runs[r := RunRows.Apply(db.runs[r], call, now)])
    else db
  }

  /** The task row after one of its runs ended in `finish`. */
  function TaskAfterFinish(t: Task): Task {
    var terminalOnce := t.schedule.Once? && !t.state.Deleted?;
    t.(state := if terminalOnce then Done else t.state,
    nameReserved := !(t.state.Deleted? || terminalOnce))
  }

  function Finish(db: Db, r: RunId, attempt: nat, outcome: RunStatus, category: Option<string>): Db
    requires RunRows.Outcome(outcome)
  {
    if r in db.runs && db.runs[r].OwnedBy(attempt) && db.runs[r].task in db.tasks then
      var task := db.runs[r].task;
      db.(runs := db.runs[r := RunRows.Finish(db.runs[r], outcome, category)],
      tasks := db.tasks[task := TaskAfterFinish(db.tasks[task])])
    else db
  }

  /** The task row after lease recovery failed one of its runs. */
  function TaskAfterExpiry(t: Task): Task {
    t.(state := if t.schedule.Once? && !t.state.Deleted? then Done else t.state,
    nameReserved := if t.schedule.Once? || t.state.Deleted? then false else t.nameReserved)
  }

  /** One per-row transaction of `recoverExpired`. */
  function RecoverRun(db: Db, r: RunId, now: Instant): Db {
    if r in db.runs && RunRows.Expired(db.runs[r], now) && db.runs[r].task in db.tasks then
      var task := db.runs[r].task;
      db.(runs := db.runs[r := RunRows.Expire(db.runs[r])],
      tasks := db.tasks[task := TaskAfterExpiry(db.tasks[task])])
    else db
  }

  // ---------- scheduled tasks ----------

  /** The unique index on reserved names. */
  predicate NameTaken(db: Db, name: string, except: set<TaskId>) {
    exists t :: t in db.tasks && t !in except && db.tasks[t].nameReserved && db.tasks[t].name == name
  }

  datatype Mutation = Updated | TaskNotFound | VersionConflict | NameConflict | PauseFirst | InvalidState | Thrown

  function CreateTask(db: Db, id: TaskId, name: string, body: Revision, nextDueAt: Instant): (Db, Mutation) {
    if id in db.tasks || (id, 1) in db.revisions then (db, Thrown)
    else if NameTaken(db, name, {}) then (db, NameConflict)
    else
      (db.(tasks := db.tasks[id := Task(name, 1, body.schedule, body.target, body.context, Active, true,
      Some(nextDueAt), None)],
      revisions := db.revisions[(id, 1) := body]), Updated)
  }

  /** A change of `None` keeps the current value; a context change may also remove it. */
  datatype Changes = Changes(
    name: Option<string>,
    instruction: Option<string>,
    schedule: Option<Schedule>,
    target: Option<Target>,
    context: Option<Option<Context>>,
    nextDueAt: Option<Instant>)

  function Or<T>(change: Option<T>, current: T): T { if change.Some? then change.value else current }

  /** The revision that `update` writes; an unreadable instruction reads as empty. */
  function Revised(db: Db, id: TaskId, changes: Changes): Revision
    requires id in db.tasks
  {
    var t := db.tasks[id];
    Revision(Or(changes.instruction, Or(Instruction(db, id, t.version), "")),
             Or(changes.schedule, t.schedule),
             Or(changes.target, t.target),
             Or(changes.context, ReadContext(t.context)))
  }

  function Update(db: Db, id: TaskId, expected: nat, changes: Changes): (Db, Mutation) {
    if id !in db.tasks then (db, TaskNotFound)
    else
      var t := db.tasks[id];
      if t.version != expected then (db, VersionConflict)
      else if t.state.InFlight? then (db, PauseFirst)
      else if t.state.Done? || t.state.Deleted? then (db, InvalidState)
      else
        var body := Revised(db, id, changes);
        var name := Or(changes.name, t.name);
        if body.instruction == "" then (db, Thrown)
        else if t.nameReserved && NameTaken(db, name, {id}) then (db, NameConflict)
        else if (id, t.version + 1) in db.revisions then (db, Thrown)
        else
          (db.(tasks := db.tasks[id := t.(name := name, version := t.version + 1, schedule := body.schedule,
          target := body.target, context := body.context,
          nextDueAt := if changes.nextDueAt.Some? then changes.nextDueAt else t.nextDueAt)],
          revisions := db.revisions[(id, t.version + 1) := body]), Updated)
  }

  /** The row the select of the cancelled run returns: the latest occurrence. */
  predicate LatestCancelled(db: Db, id: TaskId, r: RunId) {
    && r in db.runs && db.runs[r].task == id && db.runs[r].status.Cancelled?
    && forall other :: other in db.runs && db.runs[other].task == id && db.runs[other].status.Cancelled?
                       ==> db.runs[other].scheduledFor <= db.runs[r].scheduledFor
  }

  predicate CancelledChoice(db: Db, id: TaskId, choice: Option<RunId>) {
    if choice.Some? then LatestCancelled(db, id, choice.value)
    else forall r :: r in db.runs && db.runs[r].task == id ==> !db.runs[r].status.Cancelled?
  }

  function CancelQueued(db: Db, id: TaskId): map<RunId, Run> {
    map r | r in db.runs ::
      if db.runs[r].task == id && db.runs[r].status.Queued? then RunRows.Cancel(db.runs[r]) else db.runs[r]
  }

  /** The revision a pause, resume or delete writes: the task as it was read. */
  function Reread(db: Db, id: TaskId): Revision
    requires id in db.tasks
  {
    var t := db.tasks[id];
    Revision(Or(Instruction(db, id, t.version), ""), t.schedule, t.target, ReadContext(t.context))
  }

  /** `pause` and `delete`: queued runs are cancelled with the task. */
  function Stop(db: Db, id: TaskId, expected: nat, target: TaskState): (Db, Mutation)
    requires target.Paused? || target.Deleted?
  {
    if id !in db.tasks then (db, TaskNotFound)
    else
      var t := db.tasks[id];
      if t.version != expected then (db, VersionConflict)
      else if t.state.Done? || t.state.Deleted? then (db, InvalidState)
      else
        var reserved := target.Paused? || HasProcessingRun(db, id);
        if Reread(db, id).instruction == "" then (db, Thrown)
        else if reserved && NameTaken(db, t.name, {id}) then (db, Thrown)
        else if (id, t.version + 1) in db.revisions then (db, Thrown)
        else
          (db.(tasks := db.tasks[id := t.(state := target, version := t.version + 1,
          nameReserved := reserved, nextDueAt := None)],
          runs := CancelQueued(db, id),
          revisions := db.revisions[(id, t.version + 1) := Reread(db, id)]), Updated)
  }

  /** `resume`: a one-time task with a cancelled run gets that run rebound and queued again.
    * `cancelled` is what the select of the cancelled run returned. */
  function Resume(db: Db, id: TaskId, expected: nat, nextDueAt: Option<Instant>, now: Instant,
                  cancelled: Option<RunId>): (Db, Mutation)
    requires CancelledChoice(db, id, cancelled)
  {
    if id !in db.tasks then (db, TaskNotFound)
    else
      var t := db.tasks[id];
      if t.version != expected then (db, VersionConflict)
      else if !t.state.Paused? then (db, InvalidState)
      else
        var rebind := t.schedule.Once? && cancelled.Some?;
        if t.schedule.Once? && !rebind && (nextDueAt.None? || nextDueAt.value <= now) then (db, InvalidState)
        else if Reread(db, id).instruction == "" then (db, Thrown)
        else if NameTaken(db, t.name, {id}) then (db, Thrown)
        else if (id, t.version + 1) in db.revisions then (db, Thrown)
        else if rebind && HasActiveRun(db, id) then (db, Thrown)
        else
          var body := Reread(db, id);
          (db.(tasks := db.tasks[id := t.(state := if rebind then InFlight else Active,
          version := t.version + 1, nameReserved := true,
          nextDueAt := if rebind then None else if nextDueAt.Some? then nextDueAt else t.nextDueAt)],
          runs := if rebind
          then db.runs[cancelled.value := RunRows.Rebind(db.runs[cancelled.value], t.version + 1,
          body.instruction, body.target, body.context)]
          else db.runs,
          revisions := db.revisions[(id, t.version + 1) := body]), Updated)
  }
}

/** The tables under every interleaving of the store transactions.
  *
  * `claimNext` is split: `SelectRun` takes the admission lock and remembers the row it
  * read, `CommitRun` locks the task row and starts the run. Every transaction that does
  * not take the admission lock may run in between. Workers that crash, leases that
  * expire and calls that arrive late are all just steps in some order. */
module Protocol {
  import opened Records
  import opened Tables
  import EventRows
  import RunRows

  /** What `claimNext` holds between its two halves. */
  datatype Selection = Selection(run: RunId, task: TaskId, chat: ChatId)

  datatype System = System(db: Db, lock: Option<Selection>)

  const START := System(Tables.EMPTY, None)

  datatype Step =
    | Enqueue(event: EventId, conversation: ChatId, unsupported: bool, at: Instant)
    | ClaimReady(batch: set<EventId>, limit: nat, leaseUntil: Instant, now: Instant)
    | EventCall(event: EventId, eventCall: EventRows.Call, now: Instant)
    | RecoverLeases(batch: set<EventId>, clock: Instant, now: Instant)
    | CreateDue(task: TaskId, expectedDueAt: Instant, scheduledFor: Instant, nextDueAt: Option<Instant>,
                newRun: RunId, now: Instant)
    | SelectRun(run: RunId, now: Instant)
    | CommitRun(leaseUntil: Instant)
    | AbandonClaim
    | RunCall(run: RunId, runCall: RunRows.Call, now: Instant)
    | Finish(run: RunId, attempt: nat, outcome: RunStatus, category: Option<string>)
    | RecoverRun(run: RunId, now: Instant)
    | CreateTask(task: TaskId, name: string, body: Revision, dueAt: Instant)
    | Update(task: TaskId, expected: nat, changes: Changes)
    | Pause(task: TaskId, expected: nat)
    | Delete(task: TaskId, expected: nat)
    | Resume(task: TaskId, expected: nat, nextDueAt: Option<Instant>, now: Instant, cancelled: Option<RunId>)
  {
    predicate TakesLock() { Enqueue? || ClaimReady? || SelectRun? }

    predicate OnEvents() { Enqueue? || ClaimReady? || EventCall? || RecoverLeases? }

    predicate OnTasks() { CreateTask? || Update? || Pause? || Delete? || Resume? }

    predicate Admits() { ClaimReady? || CommitRun? }
  }

  /** When the step can be taken. */
  ghost predicate Enabled(s: System, step: Step) {
    && (step.TakesLock() ==> s.lock.None?)
    && match step
       case ClaimReady(batch, limit, _, now) =>
         (forall id :: id in batch ==> Claimable(s.db, id, now)) && |batch| <= Min(Slots(s.db), limit)
       case RecoverLeases(batch, clock, _) => ExpiredBatch(s.db, batch, clock)
       case SelectRun(r, now) => NextRun(s.db, r, now)
       case CommitRun(_) => s.lock.Some?
       case AbandonClaim => s.lock.Some?
       case Finish(_, _, outcome, _) => RunRows.Outcome(outcome)
       case Resume(task, _, _, _, cancelled) => CancelledChoice(s.db, task, cancelled)
       case _ => true
  }

  /** The event rows after a step on them. */
  ghost function EventsAfter(db: Db, lock: Option<Selection>, step: Step): map<EventId, Event>
    requires Enabled(System(db, lock), step) && step.OnEvents()
  {
    match step
    case Enqueue(id, conversation, unsupported, at) => Tables.Enqueue(db, id, conversation, unsupported, at).events
    case ClaimReady(batch, _, leaseUntil, _) => ClaimRows(db, batch, leaseUntil).events
    case EventCall(id, call, now) => Tables.EventCall(db, id, call, now).events
    case RecoverLeases(batch, _, now) => ExpireRows(db, batch, now).events
  }

  /** The tables after a member's mutation. */
  ghost function TasksAfter(db: Db, lock: Option<Selection>, step: Step): Db
    requires Enabled(System(db, lock), step) && step.OnTasks()
  {
    match step
    case CreateTask(task, name, body, dueAt) => Tables.CreateTask(db, task, name, body, dueAt).0
    case Update(task, expected, changes) => Tables.Update(db, task, expected, changes).0
    case Pause(task, expected) => Stop(db, task, expected, Paused).0
    case Delete(task, expected) => Stop(db, task, expected, Deleted).0
    case Resume(task, expected, next, now, cancelled) =>
      Tables.Resume(db, task, expected, next, now, cancelled).0
  }

  /** The tables after a step of the dispatcher or of a scheduled worker. */
  ghost function RunsAfter(db: Db, lock: Option<Selection>, step: Step): Db
    requires Enabled(System(db, lock), step) && !step.OnEvents() && !step.OnTasks()
  {
    match step
    case CreateDue(task, expected, at, next, newRun, now) =>
      Tables.CreateDue(db, task, expected, at, next, newRun, now).0
    case CommitRun(leaseUntil) => StartRun(db, lock.value.run, lock.value.task, leaseUntil)
    case RunCall(r, call, now) => Tables.RunCall(db, r, call, now)
    case Finish(r, attempt, outcome, category) => Tables.Finish(db, r, attempt, outcome, category)
    case RecoverRun(r, now) => Tables.RecoverRun(db, r, now)
    case _ => db
  }

  ghost function TablesAfter(db: Db, lock: Option<Selection>, step: Step): Db
    requires Enabled(System(db, lock), step)
  {
    if step.OnEvents() then db.(events := EventsAfter(db, lock, step))
    else if step.OnTasks() then TasksAfter(db, lock, step)
    else RunsAfter(db, lock, step)
  }

  ghost function After(s: System, step: Step): System
    requires Enabled(s, step)
  {
    System(TablesAfter(s.db, s.lock, step),
           match step
           case SelectRun(r, _) => Some(Selection(r, s.db.runs[r].task, s.db.runs[r].target.chat))
           case CommitRun(_) => None
           case AbandonClaim => None
           case _ => s.lock)
  }

  /** A run of the protocol: `states[i + 1]` is `states[i]` after `steps[i]`. */
  ghost predicate IsRun(states: seq<System>, steps: seq<Step>) {
    && |states| == |steps| + 1
    && states[0] == START
    && forall i {:trigger steps[i]} :: 0 <= i < |steps| ==>
         Enabled(states[i], steps[i]) && states[i + 1] == After(states[i], steps[i])
  }

  // ---------- what a step that admits nobody leaves alone ----------

  /** Nobody starts processing, and those who do keep their conversation or chat. */
  ghost predicate Quiet(a: Db, b: Db) {
    && (forall id :: id in b.events && b.events[id].status.Processing? ==>
          id in a.events && a.events[id].status.Processing?
          && b.events[id].conversation == a.events[id].conversation)
    && (forall r :: r in b.runs && b.runs[r].status.Processing? ==>
          r in a.runs && a.runs[r].status.Processing? && b.runs[r].target == a.runs[r].target)
  }

  lemma EventStepsAreQuiet(s: System, step: Step)
    requires Enabled(s, step)
    requires step.Enqueue? || step.EventCall? || step.RecoverLeases?
    ensures Quiet(s.db, After(s, step).db)
  {
    if step.EventCall? && step.event in s.db.events && EventRows.Accepts(s.db.events[step.event], step.eventCall) {
      EventRows.CallsAreFenced(s.db.events[step.event], step.eventCall, step.now);
    }
  }

  lemma TaskStepsAreQuiet(db: Db, lock: Option<Selection>, step: Step)
    requires Enabled(System(db, lock), step) && step.OnTasks()
    ensures Quiet(db, TasksAfter(db, lock, step))
  {
  }

  lemma RunStepsAreQuiet(db: Db, lock: Option<Selection>, step: Step)
    requires Enabled(System(db, lock), step) && !step.OnEvents() && !step.OnTasks() && !step.Admits()
    ensures Quiet(db, RunsAfter(db, lock, step))
  {
  }

  lemma QuietSteps(s: System, step: Step)
    requires Enabled(s, step) && !step.Admits()
    ensures Quiet(s.db, After(s, step).db)
  {
    if step.OnEvents() {
      EventStepsAreQuiet(s, step);
    } else if step.OnTasks() {
      TaskStepsAreQuiet(s.db, s.lock, step);
    } else {
      RunStepsAreQuiet(s.db, s.lock, step);
    }
  }
}

/** Every transaction on the tables moves a single row only in the ways the protocols of
  * one message and of one scheduled run allow. */
module Projection {
  import opened Records
  import opened Tables
  import opened Protocol
  import EventRows
  import RunRows

  datatype EventMove =
    | Stay
    | Call(eventCall: EventRows.Call, at: Instant)
    | Claim(leaseUntil: Instant, at: Instant)
    | Expire(clock: Instant, at: Instant)

  predicate EventMoves(a: Event, b: Event, move: EventMove) {
    match move
    case Stay => b == a
    case Call(call, at) => EventRows.Accepts(a, call) && b == EventRows.Apply(a, call, at)
    case Claim(leaseUntil, at) =>
      a.status.Queued? && a.nextAttemptAt <= at && b == EventRows.Claim(a, leaseUntil)
    case Expire(clock, at) => EventRows.Expired(a, clock) && b == EventRows.Expire(a, at)
  }

  /** The move a step makes with one event row. */
  ghost function EventMoveOf(s: System, step: Step, id: EventId): EventMove
    requires Enabled(s, step) && id in s.db.events
  {
    match step
    case EventCall(e, call, now) => if e == id && EventRows.Accepts(s.db.events[id], call) then Call(call, now) else Stay
    case ClaimReady(batch, _, leaseUntil, now) => if id in batch then Claim(leaseUntil, now) else Stay
    case RecoverLeases(batch, clock, now) => if id in batch then Expire(clock, now) else Stay
    case _ => Stay
  }

  /** Any event row, in any transaction: it stays, takes one accepted call, is claimed
    * when it is queued and due, or loses an expired lease. */
  lemma EventRowsMoveOneByOne(s: System, step: Step, id: EventId)
    requires Enabled(s, step) && id in s.db.events
    ensures id in After(s, step).db.events
    ensures EventMoves(s.db.events[id], After(s, step).db.events[id], EventMoveOf(s, step, id))
  {
    if step.OnEvents() { StepMovesEvent(s.db, s.lock, step, id); } else { OtherStepsKeepEvents(s.db, s.lock, step); }
  }

  lemma StepMovesEvent(db: Db, lock: Option<Selection>, step: Step, id: EventId)
    requires Enabled(System(db, lock), step) && step.OnEvents() && id in db.events
    ensures id in EventsAfter(db, lock, step)
    ensures EventMoves(db.events[id], EventsAfter(db, lock, step)[id], EventMoveOf(System(db, lock), step, id))
  {
  }

  lemma OtherStepsKeepEvents(db: Db, lock: Option<Selection>, step: Step)
    requires Enabled(System(db, lock), step) && !step.OnEvents()
    ensures TablesAfter(db, lock, step).events == db.events
  {
  }

  datatype RunMove =
    | RunStays
    | RunCalled(runCall: RunRows.Call, now: Instant)
    | RunClaimed(until: Instant)
    | RunFinished(attempt: nat, outcome: RunStatus, category: Option<string>)
    | RunExpired(now: Instant)
    | RunCancelled
    | RunRebound(version: nat, instruction: string, target: Target, context: Option<Context>)

  predicate RunMoves(a: Run, b: Run, move: RunMove) {
    match move
    case RunStays => b == a
    case RunCalled(call, now) => RunRows.Accepts(a, call, now) && b == RunRows.Apply(a, call, now)
    case RunClaimed(until) => a.status.Queued? && b == RunRows.Claim(a, until)
    case RunFinished(attempt, outcome, category) =>
      a.OwnedBy(attempt) && RunRows.Outcome(outcome) && b == RunRows.Finish(a, outcome, category)
    case RunExpired(now) => RunRows.Expired(a, now) && b == RunRows.Expire(a)
    case RunCancelled => a.status.Queued? && b == RunRows.Cancel(a)
    case RunRebound(version, instruction, target, context) =>
      a.status.Cancelled? && b == RunRows.Rebind(a, version, instruction, target, context)
  }

  /** The move a step makes with one run row. */
  ghost function RunMoveOf(s: System, step: Step, r: RunId): RunMove
    requires Enabled(s, step) && r in s.db.runs && r in After(s, step).db.runs
  {
    var a, b := s.db.runs[r], After(s, step).db.runs[r];
    match step
    case RunCall(id, call, now) => if id == r && RunRows.Accepts(a, call, now) then RunCalled(call, now) else RunStays
    case CommitRun(leaseUntil) => if b == a then RunStays else RunClaimed(leaseUntil)
    case Finish(_, attempt, outcome, category) => if b == a then RunStays else RunFinished(attempt, outcome, category)
    case RecoverRun(_, now) => if b == a then RunStays else RunExpired(now)
    case Resume(_, _, _, _, _) => if b == a then RunStays else RunRebound(b.version, b.instruction, b.target, b.context)
    case _ => if b == a then RunStays else RunCancelled
  }

  lemma RunRowsMoveOneByOne(s: System, step: Step, r: RunId)
    requires Enabled(s, step) && r in s.db.runs
    ensures r in After(s, step).db.runs
    ensures RunMoves(s.db.runs[r], After(s, step).db.runs[r], RunMoveOf(s, step, r))
  {
    if step.OnTasks() {
      MutationMovesRun(s.db, s.lock, step, r);
    } else if !step.OnEvents() {
      WorkerMovesRun(s.db, s.lock, step, r);
    }
  }

  lemma MutationMovesRun(db: Db, lock: Option<Selection>, step: Step, r: RunId)
    requires Enabled(System(db, lock), step) && step.OnTasks() && r in db.runs
    ensures r in TasksAfter(db, lock, step).runs
    ensures RunMoves(db.runs[r], TasksAfter(db, lock, step).runs[r], RunMoveOf(System(db, lock), step, r))
  {
  }

  lemma WorkerMovesRun(db: Db, lock: Option<Selection>, step: Step, r: RunId)
    requires Enabled(System(db, lock), step) && !step.OnEvents() && !step.OnTasks() && r in db.runs
    ensures r in RunsAfter(db, lock, step).runs
    ensures RunMoves(db.runs[r], RunsAfter(db, lock, step).runs[r], RunMoveOf(System(db, lock), step, r))
  {
  }

  // ---------- where rows come from ----------

  lemma OnlyEnqueueAddsEvents(s: System, step: Step, id: EventId)
    requires Enabled(s, step) && id !in s.db.events && id in After(s, step).db.events
    ensures step.Enqueue? && step.event == id
    ensures After(s, step).db.events[id] == EventRows.Fresh(step.conversation, step.unsupported, step.at)
  {
    if !step.OnEvents() { OtherStepsKeepEvents(s.db, s.lock, step); }
  }

  /** The event arrives with the step before state `first`. */
  ghost predicate ArrivesAt(states: seq<System>, steps: seq<Step>, id: EventId, first: nat) {
    && |states| == |steps| + 1 && 0 < first < |states|
    && id !in states[first - 1].db.events && id in states[first].db.events
    && steps[first - 1].Enqueue? && steps[first - 1].event == id
    && var arrival := steps[first - 1];
       states[first].db.events[id] == EventRows.Fresh(arrival.conversation, arrival.unsupported, arrival.at)
  }

  /** Every event of a run arrived in it. */
  lemma EveryEventArrives(states: seq<System>, steps: seq<Step>, i: nat, id: EventId) returns (first: nat)
    requires IsRun(states, steps) && i < |states| && id in states[i].db.events
    ensures first <= i && ArrivesAt(states, steps, id, first)
  {
    assert i > 0;
    assert states[i - 1 + 1] == After(states[i - 1], steps[i - 1]);
    if id in states[i - 1].db.events {
      first := EveryEventArrives(states, steps, i - 1, id);
    } else {
      first := i;
      OnlyEnqueueAddsEvents(states[i - 1], steps[i - 1], id);
    }
  }

  lemma OnlyCreateDueAddsRuns(s: System, step: Step, r: RunId)
    requires Enabled(s, step) && r !in s.db.runs && r in After(s, step).db.runs
    ensures step.CreateDue? && step.newRun == r && After(s, step).db.runs[r].task == step.task && step.task in s.db.tasks
    ensures exists instruction :: After(s, step).db.runs[r] == NewRun(s.db, step.task, step.scheduledFor, instruction, step.now)
  {
    if step.OnTasks() {
      TasksAddNoRuns(s, step, r);
    } else {
      var b := After(s, step).db.runs[r];
      assert b == NewRun(s.db, step.task, step.scheduledFor, b.instruction, step.now);
    }
  }

  lemma TasksAddNoRuns(s: System, step: Step, r: RunId)
    requires Enabled(s, step) && step.OnTasks() && r !in s.db.runs
    ensures r !in TasksAfter(s.db, s.lock, step).runs
  {
  }

  /** The run is created by the step before state `first`. */
  ghost predicate CreatedAt(states: seq<System>, steps: seq<Step>, r: RunId, first: nat) {
    && |states| == |steps| + 1 && 0 < first < |states|
    && r !in states[first - 1].db.runs && r in states[first].db.runs
    && steps[first - 1].CreateDue? && steps[first - 1].newRun == r
    && var due, run := steps[first - 1], states[first].db.runs[r];
       && due.task in states[first - 1].db.tasks
       && run == NewRun(states[first - 1].db, due.task, due.scheduledFor, run.instruction, due.now)
  }

  /** Every scheduled run of a run was created in it. */
  lemma EveryRunIsCreated(states: seq<System>, steps: seq<Step>, i: nat, r: RunId) returns (first: nat)
    requires IsRun(states, steps) && i < |states| && r in states[i].db.runs
    ensures first <= i && CreatedAt(states, steps, r, first)
  {
    assert i > 0;
    assert states[i - 1 + 1] == After(states[i - 1], steps[i - 1]);
    if r in states[i - 1].db.runs {
      first := EveryRunIsCreated(states, steps, i - 1, r);
    } else {
      first := i;
      OnlyCreateDueAddsRuns(states[i - 1], steps[i - 1], r);
    }
  }
}

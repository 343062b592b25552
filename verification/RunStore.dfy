/** `PostgresScheduledRunStore`: one method per transaction on `scheduled_runs`. */
module RunStore {
  import opened Records
  import opened Database
  import opened Protocol
  import Tables
  import RunRows

  /** The transaction has written this one run row and nothing else. */
  ghost predicate OnlyRow(was: Tables.Db, after: Tables.Db, id: RunId, row: Run) {
    after == was.(runs := was.runs[id := row])
  }

  /** A run of the task is queued or processing. */
  ghost predicate Busy(runs: map<RunId, Run>, task: TaskId) {
    exists r :: r in runs && runs[r].task == task && runs[r].status in {RunStatus.Queued, RunStatus.Processing}
  }

  class RunStore {
    const db: Database

    constructor (db: Database)
      ensures this.db == db
    {
      this.db := db;
    }

    predicate Owns(id: RunId, attempt: nat)
      reads db
    {
      id in db.runs && db.runs[id].OwnedBy(attempt)
    }

    /** Creates the run of a due occurrence, or folds the occurrence into the task. An abort
      * leaves the database as it was. */
    method CreateDue(task: TaskId, expectedDueAt: Instant, scheduledFor: Instant, nextDueAt: Option<Instant>,
                     newId: RunId, now: Instant) returns (result: Tables.DueResult)
      modifies db
      ensures (db.Contents(), result)
              == Tables.CreateDue(old(db.Contents()), task, expectedDueAt, scheduledFor, nextDueAt, newId, now)
      // the answer
      ensures result.NotFound? <==> task !in old(db.tasks)
      ensures result.Inactive? <==> task in old(db.tasks) && !old(db.tasks)[task].state.Active?
      ensures result.NotDue? <==>
                && task in old(db.tasks) && old(db.tasks)[task].state.Active?
                && old(db.tasks)[task].nextDueAt != Some(expectedDueAt)
      ensures result.ActiveRun? <==>
                && task in old(db.tasks) && old(db.tasks)[task].state.Active?
                && old(db.tasks)[task].nextDueAt == Some(expectedDueAt) && Busy(old(db.runs), task)
      ensures result.Aborted? ==>
                && task in old(db.tasks) && !Busy(old(db.runs), task)
                && var key := (task, old(db.tasks)[task].version);
                   || key !in old(db.revisions) || old(db.revisions)[key].instruction == "" || newId in old(db.runs)
                   || exists r :: r in old(db.runs) && old(db.runs)[r].task == task && old(db.runs)[r].scheduledFor == scheduledFor
      // the tables
      ensures !result.Created? && !result.ActiveRun? ==> db.Contents() == old(db.Contents())
      ensures result.ActiveRun? ==>
                var t := old(db.tasks)[task];
                && db.Contents() == old(db.Contents()).(tasks := old(db.tasks)[task := db.tasks[task]])
                && db.tasks[task] == t.(latestMissedAt := db.tasks[task].latestMissedAt, nextDueAt := db.tasks[task].nextDueAt)
                && db.tasks[task].nextDueAt == (if nextDueAt.Some? then nextDueAt else t.nextDueAt)
                && db.tasks[task].latestMissedAt
                   == (if t.latestMissedAt.Some? && t.latestMissedAt.value > scheduledFor then t.latestMissedAt else Some(scheduledFor))
      ensures result.Created? ==>
                && result.run == newId && newId !in old(db.runs) && !Busy(old(db.runs), task)
                && var t := old(db.tasks)[task];
                   && (task, t.version) in old(db.revisions) && old(db.revisions)[(task, t.version)].instruction != ""
                   && (forall r :: r in old(db.runs) && old(db.runs)[r].task == task
                                   ==> old(db.runs)[r].scheduledFor != scheduledFor)
                   && db.runs == old(db.runs)[newId :=
                        Run(task, scheduledFor, now, t.version, old(db.revisions)[(task, t.version)].instruction, t.target,
                            t.context, RunStatus.Queued, 0, None, None, None, None, None, None, None)]
                   && db.tasks == old(db.tasks)[task := t.(latestMissedAt := None,
                        nextDueAt := if t.schedule.Once? then None else nextDueAt,
                        state := if t.schedule.Once? then InFlight else t.state)]
                   && db.events == old(db.events) && db.revisions == old(db.revisions)
    {
      if task !in db.tasks { return Tables.NotFound; }
      var row := db.tasks[task];
      if !row.state.Active? { return Tables.Inactive; }
      if row.nextDueAt.None? || row.nextDueAt.value != expectedDueAt { return Tables.NotDue; }
      if Tables.HasActiveRun(db.Contents(), task) {
        var missed := scheduledFor;
        if row.latestMissedAt.Some? && row.latestMissedAt.value > missed { missed := row.latestMissedAt.value; }
        var due := row.nextDueAt;
        if nextDueAt.Some? { due := nextDueAt; }
        db.tasks := db.tasks[task := row.(latestMissedAt := Some(missed), nextDueAt := due)];
        return Tables.ActiveRun;
      }
      if (task, row.version) !in db.revisions { return Tables.Aborted; }
      var instruction := db.revisions[(task, row.version)].instruction;
      if instruction == "" { return Tables.Aborted; }
      if newId in db.runs || Tables.OccurrenceTaken(db.Contents(), task, scheduledFor) { return Tables.Aborted; }
      db.runs := db.runs[newId := Run(task, scheduledFor, now, row.version, instruction, row.target, row.context,
                                      RunStatus.Queued, 0, None, None, None, None, None, None, None)];
      if row.schedule.Once? {
        row := row.(state := InFlight, nextDueAt := None);
      } else {
        row := row.(nextDueAt := nextDueAt);
      }
      db.tasks := db.tasks[task := row.(latestMissedAt := None)];
      result := Tables.Created(newId);
    }

    /** Selects the first ready run and starts it if its task still allows it: no message is
      * due, no run is processing, a slot is free and no message of its chat is processing; no
      * other run that could start comes before it; and a run that could start is left waiting
      * only when the first such run belongs to a task that is not live. */
    method ClaimNext(leaseMs: int, now: Instant) returns (claimed: Option<RunId>)
      modifies db
      ensures claimed.Some? ==>
                var was, id := old(db.Contents()), claimed.value;
                && id in was.runs && was.runs[id].status.Queued?
                && (forall e :: e in was.events && was.events[e].status.Queued? ==> now < was.events[e].nextAttemptAt)
                && (forall r :: r in was.runs ==> !was.runs[r].status.Processing?)
                && |set e | e in was.events && was.events[e].status.Processing?| < 4
                && (forall e :: e in was.events && was.events[e].status.Processing?
                                ==> was.events[e].conversation != was.runs[id].target.chat)
      ensures claimed.Some? ==>
                var was, id := old(db.Contents()), claimed.value;
                && First(was, id, now) && LiveTask(was, was.runs[id].task)
                && db.Contents() == was.(runs := was.runs[id := was.runs[id].(
                     status := RunStatus.Processing, claimAttempt := was.runs[id].claimAttempt + 1,
                     leasedUntil := Some(now + leaseMs))])
      ensures claimed.None? ==>
                var was := old(db.Contents());
                && db.Contents() == was
                && ((forall r :: !Startable(was, r, now)) || exists r :: First(was, r, now) && !LiveTask(was, was.runs[r].task))
      ensures claimed.Some? ==>
                var was := old(db.Contents());
                && Tables.NextRun(was, claimed.value, now)
                && Tables.MayStart(was, claimed.value, was.runs[claimed.value].task)
                && db.Contents() == Tables.StartRun(was, claimed.value, was.runs[claimed.value].task, now + leaseMs)
      ensures claimed.None? ==>
                var was := old(db.Contents());
                && db.Contents() == was
                && ((forall r :: !Tables.ReadyRun(was, r, now))
                    || exists r :: Tables.NextRun(was, r, now) && !Tables.MayStart(was, r, was.runs[r].task))
    {
      var ready := Ready(db.Contents(), now);
      if ready == {} {
        NothingReady(db.Contents(), now);
        forall r ensures !Startable(db.Contents(), r, now) { StartableIsReady(db.Contents(), r, now); }
        return None;
      }
      var id := EarliestRun(db.runs, ready);
      FirstReadyIsNext(db.Contents(), id, now);
      NextIsFirst(db.Contents(), id, now);
      var run := db.runs[id];
      if run.task !in db.tasks { return None; }
      var state := db.tasks[run.task].state;
      if !state.Active? && !state.InFlight? { return None; }
      db.runs := db.runs[id := run.(status := RunStatus.Processing, claimAttempt := run.claimAttempt + 1,
                                    leasedUntil := Some(now + leaseMs))];
      claimed := Some(id);
    }

    method PrepareDelivery(id: RunId, attempt: nat, text: string, now: Instant) returns (prepared: bool)
      modifies db
      ensures Takes(old(db.Contents()), Step.RunCall(id, RunRows.PrepareDelivery(attempt, text), now), db.Contents())
      ensures prepared <==> old(Owns(id, attempt)) && old(db.runs[id]).deliveryAt.None?
      ensures prepared ==> OnlyRow(old(db.Contents()), db.Contents(), id,
                                   old(db.runs[id]).(preparedText := Some(text), deliveryAt := Some(now)))
      ensures !prepared ==> db.Contents() == old(db.Contents())
    {
      prepared := Owns(id, attempt) && db.runs[id].deliveryAt.None?;
      if prepared { db.runs := db.runs[id := db.runs[id].(preparedText := Some(text), deliveryAt := Some(now))]; }
    }

    method ExtendLease(id: RunId, attempt: nat, leaseMs: int, now: Instant) returns (extended: bool)
      modifies db
      ensures Takes(old(db.Contents()), Step.RunCall(id, RunRows.ExtendLease(attempt, leaseMs), now), db.Contents())
      ensures extended <==> old(Owns(id, attempt) && db.runs[id].leasedUntil.Some?) && now <= old(db.runs[id]).leasedUntil.value
      ensures extended ==> OnlyRow(old(db.Contents()), db.Contents(), id, old(db.runs[id]).(leasedUntil := Some(now + leaseMs)))
      ensures !extended ==> db.Contents() == old(db.Contents())
    {
      extended := Owns(id, attempt) && db.runs[id].leasedUntil.Some? && now <= db.runs[id].leasedUntil.value;
      if extended { db.runs := db.runs[id := db.runs[id].(leasedUntil := Some(now + leaseMs))]; }
    }

    method MarkDelivered(id: RunId, attempt: nat, message: string, now: Instant) returns (marked: bool)
      modifies db
      ensures Takes(old(db.Contents()), Step.RunCall(id, RunRows.MarkDelivered(attempt, message), now), db.Contents())
      ensures marked <==> old(Owns(id, attempt) && db.runs[id].deliveryAt.Some? && db.runs[id].deliveryMessage.None?)
      ensures marked ==> OnlyRow(old(db.Contents()), db.Contents(), id, old(db.runs[id]).(deliveryMessage := Some(message)))
      ensures !marked ==> db.Contents() == old(db.Contents())
    {
      marked := Owns(id, attempt) && db.runs[id].deliveryAt.Some? && db.runs[id].deliveryMessage.None?;
      if marked { db.runs := db.runs[id := db.runs[id].(deliveryMessage := Some(message))]; }
    }

    method BeginFallback(id: RunId, attempt: nat, now: Instant) returns (begun: bool)
      modifies db
      ensures Takes(old(db.Contents()), Step.RunCall(id, RunRows.BeginFallback(attempt), now), db.Contents())
      ensures begun <==> old(Owns(id, attempt) && db.runs[id].fallbackAt.None?)
      ensures begun ==> OnlyRow(old(db.Contents()), db.Contents(), id, old(db.runs[id]).(fallbackAt := Some(now)))
      ensures !begun ==> db.Contents() == old(db.Contents())
    {
      begun := Owns(id, attempt) && db.runs[id].fallbackAt.None?;
      if begun { db.runs := db.runs[id := db.runs[id].(fallbackAt := Some(now))]; }
    }

    /** `beginWrite` of the agent run store, for a scheduled run: the mark. */
    method BeginWrite(id: RunId, attempt: nat, now: Instant) returns (marked: bool)
      modifies db
      ensures Takes(old(db.Contents()), Step.RunCall(id, RunRows.MarkWrite(attempt), now), db.Contents())
      ensures marked == old(Owns(id, attempt))
      ensures marked ==> id in db.runs && db.runs[id].writeStartedAt.Some?
      ensures marked ==> OnlyRow(old(db.Contents()), db.Contents(), id, old(db.runs[id]).(
                writeStartedAt := if old(db.runs[id]).writeStartedAt.Some? then old(db.runs[id]).writeStartedAt else Some(now)))
      ensures !marked ==> db.Contents() == old(db.Contents())
    {
      marked := Owns(id, attempt);
      if marked && db.runs[id].writeStartedAt.None? {
        db.runs := db.runs[id := db.runs[id].(writeStartedAt := Some(now))];
      }
    }

    /** Ends a run and, with it, a one-time task or the name of a deleted one. */
    method Finish(id: RunId, attempt: nat, outcome: RunStatus, category: Option<string>) returns (owned: bool)
      requires RunRows.Outcome(outcome)
      requires id in db.runs ==> db.runs[id].task in db.tasks
      modifies db
      ensures Takes(old(db.Contents()), Step.Finish(id, attempt, outcome, category), db.Contents())
      ensures owned == old(Owns(id, attempt)) && (!owned ==> db.Contents() == old(db.Contents()))
      ensures owned ==>
                var run := old(db.runs[id]);
                var task := old(db.tasks)[run.task];
                && db.runs == old(db.runs)[id := run.(status := outcome, category := category, leasedUntil := None)]
                && db.tasks == old(db.tasks)[run.task := task.(
                     state := if task.schedule.Once? && !task.state.Deleted? then Done else task.state,
                     nameReserved := task.schedule.Cron? && !task.state.Deleted?)]
                && db.events == old(db.events) && db.revisions == old(db.revisions)
    {
      if id !in db.runs { return false; }
      var run := db.runs[id];
      var task := db.tasks[run.task];
      owned := Owns(id, attempt);
      if owned {
        db.runs := db.runs[id := run.(status := outcome, category := category, leasedUntil := None)];
        var completes := task.schedule.Once? && !task.state.Deleted?;
        if completes {
          task := task.(state := Done, nameReserved := false);
        } else {
          task := task.(nameReserved := !task.state.Deleted?);
        }
        db.tasks := db.tasks[run.task := task];
      }
    }

    /** One transaction of `recoverExpired`: the guard is checked again under the task's lock. */
    method RecoverOne(id: RunId, now: Instant) returns (recovered: bool)
      requires id in db.runs && db.runs[id].task in db.tasks
      modifies db
      ensures db.Contents() == Tables.RecoverRun(old(db.Contents()), id, now)
      ensures Takes(old(db.Contents()), Step.RecoverRun(id, now), db.Contents())
      ensures recovered == RunRows.Expired(old(db.runs[id]), now)
      ensures recovered <==> var run := old(db.runs[id]);
                             run.status.Processing? && run.leasedUntil.Some? && run.leasedUntil.value < now
    {
      var run := db.runs[id];
      recovered := run.status.Processing? && run.leasedUntil.Some? && run.leasedUntil.value < now;
      if recovered {
        db.runs := db.runs[id := run.(status := RunStatus.Failed, leasedUntil := None,
                                      category := Some("scheduled_run_claim_expired"))];
        var task := db.tasks[run.task];
        if task.schedule.Once? || task.state.Deleted? { task := task.(nameReserved := false); }
        if task.schedule.Once? && !task.state.Deleted? { task := task.(state := Done); }
        db.tasks := db.tasks[run.task := task];
      }
    }

    method RecoverNext(ghost was: Tables.Db, ghost candidates: set<RunId>, ghost left: set<RunId>, ghost failed: set<RunId>,
                       id: RunId, now: Instant)
      returns (recovered: bool, ghost more: set<RunId>)
      requires Halfway(was, db.Contents(), candidates, left, failed, now) && id in left
      modifies db
      ensures |more| == |failed| + if recovered then 1 else 0
      ensures Halfway(was, db.Contents(), candidates, left - {id}, more, now)
    {
      OneMore(was, db.Contents(), failed, id, now);
      recovered := RecoverOne(id, now);
      more := if recovered then failed + {id} else failed;
    }

    /** The transactions for the rows that were listed, in whatever state they have come to:
      * exactly those whose lease is still expired are failed and counted, their tasks end
      * with them, and nothing else moves. */
    method RecoverListed(candidates: set<RunId>, now: Instant) returns (recovered: nat)
      requires candidates <= db.runs.Keys && Linked(db.Contents())
      modifies db
      ensures var failed := candidates * ExpiredRuns(old(db.runs), now);
              Recovered(old(db.Contents()), db.Contents(), failed) && recovered == |failed|
    {
      ghost var was := db.Contents();
      ghost var failed: set<RunId> := {};
      var left := candidates;
      recovered := 0;
      while left != {}
        invariant Halfway(was, db.Contents(), candidates, left, failed, now) && recovered == |failed|
        decreases |left|
      {
        var id := Choose(left);
        var done: bool;
        done, failed := RecoverNext(was, candidates, left, failed, id, now);
        if done { recovered := recovered + 1; }
        left := left - {id};
      }
      NothingLeft(was, db.Contents(), candidates, failed, now);
    }

    /** Fails every run whose lease has expired, one transaction each. */
    method RecoverExpired(now: Instant) returns (recovered: nat)
      requires Linked(db.Contents())
      modifies db
      ensures Recovered(old(db.Contents()), db.Contents(), ExpiredRuns(old(db.runs), now))
      ensures recovered == |ExpiredRuns(old(db.runs), now)| && ExpiredRuns(db.runs, now) == {}
    {
      ghost var was := db.Contents();
      var expired := ExpiredRuns(db.runs, now);
      recovered := RecoverListed(expired, now);
      assert expired * expired == expired;
      NoneLeft(was, db.Contents(), now);
    }
  }

  /** The runs in `failed` have been failed and their tasks have ended; nothing else has moved. */
  ghost predicate Recovered(a: Tables.Db, b: Tables.Db, failed: set<RunId>) {
    && b == a.(runs := b.runs, tasks := b.tasks) && failed <= a.runs.Keys
    && RunsFailed(a.runs, b.runs, failed) && TasksEnded(a.tasks, b.tasks, a.runs, failed)
  }

  ghost predicate RunsFailed(a: map<RunId, Run>, b: map<RunId, Run>, failed: set<RunId>) {
    && b.Keys == a.Keys
    && forall r :: r in a ==>
         b[r] == if r in failed
                 then a[r].(status := RunStatus.Failed, leasedUntil := None, category := Some("scheduled_run_claim_expired"))
                 else a[r]
  }

  /** Every run has its task: the foreign key. */
  ghost predicate Linked(db: Tables.Db) { forall r :: r in db.runs ==> db.runs[r].task in db.tasks }

  /** All candidates but those `left` have been dealt with. */
  ghost predicate Halfway(was: Tables.Db, db: Tables.Db, candidates: set<RunId>, left: set<RunId>, failed: set<RunId>,
                          now: Instant)
  {
    && left <= candidates <= was.runs.Keys && Linked(was)
    && failed == (candidates - left) * ExpiredRuns(was.runs, now) && Recovered(was, db, failed)
  }

  lemma NothingLeft(was: Tables.Db, db: Tables.Db, candidates: set<RunId>, failed: set<RunId>, now: Instant)
    requires Halfway(was, db, candidates, {}, failed, now)
    ensures failed == candidates * ExpiredRuns(was.runs, now) && Recovered(was, db, failed)
  {
    assert candidates - {} == candidates;
  }

  lemma OneMore(was: Tables.Db, db: Tables.Db, failed: set<RunId>, id: RunId, now: Instant)
    requires Recovered(was, db, failed) && id in was.runs && id !in failed && was.runs[id].task in was.tasks
    ensures id in db.runs && db.runs[id] == was.runs[id] && db.runs[id].task in db.tasks
    ensures Recovered(was, Tables.RecoverRun(db, id, now), if RunRows.Expired(was.runs[id], now) then failed + {id} else failed)
  {
    if RunRows.Expired(was.runs[id], now) { OneMoreEnded(was.tasks, db.tasks, was.runs, failed, id); }
  }

  // ---------- what admission promises for a run ----------

  /** The run waits, and nothing else has to go first: written out, column by column. */
  ghost predicate Startable(db: Tables.Db, r: RunId, now: Instant) {
    && r in db.runs && db.runs[r].status.Queued?
    && (forall e :: e in db.events && db.events[e].status.Queued? ==> db.events[e].nextAttemptAt > now)
    && (forall other :: other in db.runs ==> !db.runs[other].status.Processing?)
    && |set e | e in db.events && db.events[e].status.Processing?| <= 3
    && !exists e :: e in db.events && db.events[e].status.Processing? && db.events[e].conversation == db.runs[r].target.chat
  }

  /** None that could start is due earlier, or was created earlier for the same instant. */
  ghost predicate First(db: Tables.Db, r: RunId, now: Instant) {
    && Startable(db, r, now)
    && forall other :: Startable(db, other, now) ==>
         && db.runs[r].scheduledFor <= db.runs[other].scheduledFor
         && (db.runs[r].scheduledFor == db.runs[other].scheduledFor ==> db.runs[r].createdAt <= db.runs[other].createdAt)
  }

  ghost predicate LiveTask(db: Tables.Db, task: TaskId) {
    task in db.tasks && db.tasks[task].state in {TaskState.Active, TaskState.InFlight}
  }

  lemma StartableIsReady(db: Tables.Db, r: RunId, now: Instant)
    ensures Startable(db, r, now) <==> Tables.ReadyRun(db, r, now)
  {
    assert (set e | e in db.events && db.events[e].status.Processing?) == Tables.ProcessingEvents(db);
    if Tables.ReadyRun(db, r, now) {
      forall other | other in db.runs ensures !db.runs[other].status.Processing? {
        assert other !in Tables.ProcessingRuns(db);
      }
    }
    if Startable(db, r, now) { NoneProcessing(db); }
  }

  lemma NoneProcessing(db: Tables.Db)
    requires forall r :: r in db.runs ==> !db.runs[r].status.Processing?
    ensures Tables.ProcessingRuns(db) == {}
  {
    forall r ensures r !in Tables.ProcessingRuns(db) {}
  }

  lemma NextIsFirst(db: Tables.Db, r: RunId, now: Instant)
    ensures First(db, r, now) <==> Tables.NextRun(db, r, now)
  {
    forall other ensures Startable(db, other, now) <==> Tables.ReadyRun(db, other, now) {
      StartableIsReady(db, other, now);
    }
  }

  function Ready(db: Tables.Db, now: Instant): set<RunId> {
    set r | r in db.runs && Tables.ReadyRun(db, r, now)
  }

  lemma NothingReady(db: Tables.Db, now: Instant)
    requires Ready(db, now) == {}
    ensures forall r :: !Tables.ReadyRun(db, r, now)
  {
    forall r ensures !Tables.ReadyRun(db, r, now) {
      assert r !in Ready(db, now);
    }
  }

  lemma FirstReadyIsNext(db: Tables.Db, id: RunId, now: Instant)
    requires id in Ready(db, now)
    requires forall other :: other in Ready(db, now) ==> Tables.RunFirst(db.runs[id], db.runs[other])
    ensures Tables.NextRun(db, id, now)
  {
    forall other | other in db.runs && Tables.ReadyRun(db, other, now)
      ensures Tables.RunFirst(db.runs[id], db.runs[other])
    {
      assert other in Ready(db, now);
    }
  }

  function ExpiredRuns(runs: map<RunId, Run>, now: Instant): set<RunId> {
    set r | r in runs && runs[r].status.Processing? && runs[r].leasedUntil.Some? && runs[r].leasedUntil.value < now
  }

  lemma NoneLeft(a: Tables.Db, b: Tables.Db, now: Instant)
    requires Recovered(a, b, ExpiredRuns(a.runs, now))
    ensures ExpiredRuns(b.runs, now) == {}
  {
    forall r | r in b.runs ensures !RunRows.Expired(b.runs[r], now) {
      assert r in a.runs;
    }
  }

  /** The tasks of the runs in `failed` have ended with them, the others have not moved. */
  ghost predicate TasksEnded(a: map<TaskId, Task>, b: map<TaskId, Task>, runs: map<RunId, Run>, failed: set<RunId>)
    requires failed <= runs.Keys
  {
    && (forall t :: t in b <==> t in a)
    && forall t :: t in a ==>
         b[t] == if exists r :: r in failed && runs[r].task == t then Ended(a[t]) else a[t]
  }

  /** A one-time task is done with its run unless it was deleted; both let their name go. */
  function Ended(t: Task): Task {
    t.(state := if t.schedule.Once? && !t.state.Deleted? then Done else t.state,
    nameReserved := t.nameReserved && t.schedule.Cron? && !t.state.Deleted?)
  }

  lemma OneMoreEnded(a: map<TaskId, Task>, b: map<TaskId, Task>, runs: map<RunId, Run>, failed: set<RunId>, id: RunId)
    requires failed <= runs.Keys && id in runs && runs[id].task in a && TasksEnded(a, b, runs, failed)
    ensures TasksEnded(a, b[runs[id].task := Tables.TaskAfterExpiry(b[runs[id].task])], runs, failed + {id})
  {
    var task := runs[id].task;
    var after := b[task := Tables.TaskAfterExpiry(b[task])];
    forall t | t in a
      ensures after[t] == if exists r :: r in failed + {id} && runs[r].task == t then Ended(a[t]) else a[t]
    {
      if t == task { assert id in failed + {id}; }
      if r :| r in failed && runs[r].task == t { assert r in failed + {id}; }
    }
  }
}

/** `poll` of the schedule dispatcher: the due tasks are read once, then handled in turn. */
module DispatchLoop {
  import opened Records
  import opened Tables
  import opened Dispatcher
  import Database
  import RunStore
  import StaleDates

  const LIST_LIMIT := 50

  function DispatchOrder(t: Task): Instant {
    if t.latestMissedAt.Some? then t.latestMissedAt.value else if t.nextDueAt.Some? then t.nextDueAt.value else 0
  }

  predicate DispatchedBefore(a: TaskId, ta: Task, b: TaskId, tb: Task) {
    DispatchOrder(ta) < DispatchOrder(tb) || (DispatchOrder(ta) == DispatchOrder(tb) && a < b)
  }

  method FirstDue(tasks: map<TaskId, Task>, ids: set<TaskId>) returns (first: TaskId)
    requires ids != {} && ids <= tasks.Keys
    ensures first in ids
    ensures forall other :: other in ids && other != first ==> DispatchedBefore(first, tasks[first], other, tasks[other])
  {
    first := Database.Choose(ids);
    var rest := ids - {first};
    while rest != {}
      invariant first in ids && rest <= ids
      invariant forall other :: other in ids - rest && other != first
                                ==> DispatchedBefore(first, tasks[first], other, tasks[other])
      decreases |rest|
    {
      var id := Database.Choose(rest);
      if DispatchedBefore(id, tasks[id], first, tasks[first]) { first := id; }
      rest := rest - {id};
    }
  }

  /** What the task waits for, missed or due, lies farther back. */
  ghost predicate LongerDue(a: Task, b: Task) {
    exists x, y :: WaitsFor(a, x) && WaitsFor(b, y) && x < y
  }

  predicate WaitsFor(t: Task, x: Instant) {
    t.latestMissedAt == Some(x) || (t.latestMissedAt.None? && t.nextDueAt == Some(x))
  }

  ghost predicate Listed(tasks: map<TaskId, Task>, ids: seq<TaskId>, left: set<TaskId>, now: Instant) {
    && left <= tasks.Keys
    && (forall i :: 0 <= i < |ids| ==> ids[i] in tasks && Dispatchable(tasks[ids[i]], now) && ids[i] !in left)
    && (forall i, j :: 0 <= i < j < |ids| ==> DispatchedBefore(ids[i], tasks[ids[i]], ids[j], tasks[ids[j]]))
    && (forall i, t :: 0 <= i < |ids| && t in left ==> DispatchedBefore(ids[i], tasks[ids[i]], t, tasks[t]))
    && (forall t :: t in tasks && Dispatchable(tasks[t], now) <==> t in ids || t in left)
  }

  /** The first dispatchable tasks; `left` are the ones beyond the limit, all of them later. */
  method ListDispatchable(tasks: map<TaskId, Task>, now: Instant, limit: nat) returns (ids: seq<TaskId>, ghost left: set<TaskId>)
    ensures Listed(tasks, ids, left, now) && |ids| <= limit && (left != {} ==> |ids| == limit)
    // active tasks with a date that has come or a missed occurrence, the longest waiting first
    ensures forall t :: t in tasks ==>
              (t in ids || t in left <==>
                 && tasks[t].state.Active?
                 && (tasks[t].latestMissedAt.Some? || (tasks[t].nextDueAt.Some? && tasks[t].nextDueAt.value <= now)))
    ensures forall i, j :: 0 <= i < j < |ids| ==> !LongerDue(tasks[ids[j]], tasks[ids[i]])
    ensures forall i, t :: 0 <= i < |ids| && t in left ==> !LongerDue(tasks[t], tasks[ids[i]])
  {
    ids := [];
    var waiting := set t | t in tasks && Dispatchable(tasks[t], now);
    while |ids| < limit && waiting != {}
      invariant Listed(tasks, ids, waiting, now) && |ids| <= limit
      decreases |waiting|
    {
      var id := FirstDue(tasks, waiting);
      assert forall t :: t in ids + [id] <==> t in ids || t == id;
      ids := ids + [id];
      waiting := waiting - {id};
    }
    left := waiting;
  }

  ghost predicate AllIdeal(calendar: Schedule -> Calendar) { forall s :: Ideal(calendar(s)) }

  /** One atomic poll per task, in order. */
  ghost function PollEach(db: Db, ids: seq<TaskId>, now: Instant, calendar: Schedule -> Calendar, newId: TaskId -> RunId): Db
    requires AllIdeal(calendar)
  {
    if ids == [] then db
    else
      var last := ids[|ids| - 1];
      var before := PollEach(db, ids[..|ids| - 1], now, calendar, newId);
      if last in before.tasks
      then Poll(before, last, now, calendar(before.tasks[last].schedule), newId(last))
      else before
  }

  lemma {:induction false} PollsMoveTheirTasks(db: Db, ids: seq<TaskId>, now: Instant, calendar: Schedule -> Calendar,
                                                newId: TaskId -> RunId, other: TaskId)
    requires AllIdeal(calendar) && other !in ids
    ensures var after := PollEach(db, ids, now, calendar, newId);
            && (other in after.tasks <==> other in db.tasks)
            && (other in db.tasks ==> after.tasks[other] == db.tasks[other])
  {
    if ids != [] { PollsMoveTheirTasks(db, ids[..|ids| - 1], now, calendar, newId, other); }
  }

  /** The turn of task `k` throws. */
  ghost predicate AbortsAt(db: Db, ids: seq<TaskId>, k: nat, now: Instant, calendar: Schedule -> Calendar, newId: TaskId -> RunId)
    requires AllIdeal(calendar) && k < |ids|
  {
    var before := PollEach(db, ids[..k], now, calendar, newId);
    ids[k] in before.tasks && Aborts(before, ids[k], now, calendar(before.tasks[ids[k]].schedule), newId(ids[k]))
  }

  /** The turn of the task folds: it is about a missed occurrence, or one other than the date in
    * the row, or it finds the task busy. */
  ghost predicate Folds(db: Db, id: TaskId, now: Instant, next: Calendar)
    requires id in db.tasks && Ideal(next)
  {
    var t := db.tasks[id];
    exists o :: StaleDates.Owed(t, o, now, next) && (HasActiveRun(db, id) || t.nextDueAt.value > now || t.nextDueAt != Some(o))
  }

  ghost predicate FoldsAt(db: Db, ids: seq<TaskId>, k: nat, now: Instant, calendar: Schedule -> Calendar, newId: TaskId -> RunId)
    requires AllIdeal(calendar) && k < |ids|
  {
    var before := PollEach(db, ids[..k], now, calendar, newId);
    ids[k] in before.tasks && Folds(before, ids[k], now, calendar(before.tasks[ids[k]].schedule))
  }

  /** How many of the first `k` turns fold. */
  ghost function FoldedCount(db: Db, ids: seq<TaskId>, k: nat, now: Instant, calendar: Schedule -> Calendar,
                             newId: TaskId -> RunId): nat
    requires AllIdeal(calendar) && k <= |ids|
  {
    if k == 0 then 0
    else FoldedCount(db, ids, k - 1, now, calendar, newId) + if FoldsAt(db, ids, k - 1, now, calendar, newId) then 1 else 0
  }

  /** The first `k` turns were taken, and none of them threw. */
  ghost predicate Passed(db: Db, ids: seq<TaskId>, k: nat, after: Db, now: Instant, calendar: Schedule -> Calendar,
                         newId: TaskId -> RunId)
    requires AllIdeal(calendar)
  {
    && k <= |ids| && after == PollEach(db, ids[..k], now, calendar, newId)
    && (forall j :: 0 <= j < k ==> !AbortsAt(db, ids, j, now, calendar, newId))
  }

  /** The poll comes to the first turn that throws, or to the end of the list. */
  ghost predicate StopsAt(db: Db, ids: seq<TaskId>, k: nat, after: Db, now: Instant, calendar: Schedule -> Calendar,
                          newId: TaskId -> RunId)
    requires AllIdeal(calendar)
  {
    Passed(db, ids, k, after, now, calendar, newId) && (k < |ids| ==> AbortsAt(db, ids, k, now, calendar, newId))
  }

  /** An idle task with a stale date at the head of the list keeps every other task waiting. */
  lemma StaleHeadBlocksPoll(db: Db, ids: seq<TaskId>, k: nat, after: Db, now: Instant, calendar: Schedule -> Calendar,
                            newId: TaskId -> RunId, o: Instant)
    requires AllIdeal(calendar) && StopsAt(db, ids, k, after, now, calendar, newId)
    requires ids != [] && ids[0] in db.tasks && !HasActiveRun(db, ids[0])
    requires var next := calendar(db.tasks[ids[0]].schedule);
             StaleDates.StaleAt(db, ids[0], o, next) && o <= now < next(o)
    ensures k == 0 && after == db
  {
    var next := calendar(db.tasks[ids[0]].schedule);
    assert Ideal(next) && ids[..0] == [];
    StaleDates.StaleDueAborts(db, ids[0], o, next, now, newId(ids[0]));
    assert AbortsAt(db, ids, 0, now, calendar, newId);
  }

  /** Reading the list once is as good as reading each task at its turn: the poll has the
    * effect of one atomic poll per listed task, and `created` counts the new runs, and every
    * due task is created or folded. The first `createDue` that throws ends the poll; what came
    * before it stays, and the rest is not looked at. */
  method PollOnce(runs: RunStore.RunStore, now: Instant, calendar: Schedule -> Calendar, newId: TaskId -> RunId)
    returns (ids: seq<TaskId>, created: nat, folded: nat, failed: bool)
    requires AllIdeal(calendar)
    modifies runs.db
    ensures exists left :: Listed(old(runs.db.tasks), ids, left, now) && |ids| <= LIST_LIMIT
                           && (left != {} ==> |ids| == LIST_LIMIT)
    ensures exists k: nat :: StopsAt(old(runs.db.Contents()), ids, k, runs.db.Contents(), now, calendar, newId)
                        && (failed <==> k < |ids|)
                        && folded == FoldedCount(old(runs.db.Contents()), ids, k, now, calendar, newId)
    ensures |runs.db.runs| == |old(runs.db.runs)| + created
    ensures created <= |ids| && folded <= |ids|
    ensures !failed && AllDue(old(runs.db.tasks), ids) ==> |ids| <= created + folded
  {
    ghost var left;
    ids, left := ListDispatchable(runs.db.tasks, now, LIST_LIMIT);
    ListedOnce(runs.db.tasks, ids, left, now);
    created, folded, failed := PollListed(runs, ids, now, calendar, newId);
  }

  /** Every task of the list is dispatchable and appears once. */
  ghost predicate EachOnce(tasks: map<TaskId, Task>, ids: seq<TaskId>, now: Instant) {
    forall i :: 0 <= i < |ids| ==> ids[i] in tasks && Dispatchable(tasks[ids[i]], now) && ids[i] !in ids[..i]
  }

  lemma ListedOnce(tasks: map<TaskId, Task>, ids: seq<TaskId>, left: set<TaskId>, now: Instant)
    requires Listed(tasks, ids, left, now)
    ensures EachOnce(tasks, ids, now)
  {
  }

  /** The loop over the list. */
  method PollListed(runs: RunStore.RunStore, ids: seq<TaskId>, now: Instant, calendar: Schedule -> Calendar,
                    newId: TaskId -> RunId)
    returns (created: nat, folded: nat, failed: bool)
    requires AllIdeal(calendar) && EachOnce(runs.db.tasks, ids, now)
    modifies runs.db
    ensures exists k: nat :: StopsAt(old(runs.db.Contents()), ids, k, runs.db.Contents(), now, calendar, newId)
                        && (failed <==> k < |ids|)
                        && folded == FoldedCount(old(runs.db.Contents()), ids, k, now, calendar, newId)
    ensures |runs.db.runs| == |old(runs.db.runs)| + created
    ensures created <= |ids| && folded <= |ids|
    ensures !failed && AllDue(old(runs.db.tasks), ids) ==> |ids| <= created + folded
  {
    ghost var was := runs.db.Contents();
    var rows := runs.db.tasks;
    created, folded, failed := 0, 0, false;
    for i := 0 to |ids|
      invariant Passed(was, ids, i, runs.db.Contents(), now, calendar, newId)
      invariant |runs.db.runs| == |was.runs| + created
      invariant !failed && created <= i && folded <= i
      invariant folded == FoldedCount(was, ids, i, now, calendar, newId)
      invariant AllDue(rows, ids) ==> i <= created + folded
    {
      var id := ids[i];
      Turn(was, runs.db.Contents(), ids, now, calendar, newId, i);
      var task := rows[id];
      var made, missed, threw := PollTask(runs, id, task, now, calendar(task.schedule), newId(id));
      if threw { return created, folded, true; }
      if made { created := created + 1; }
      if missed { folded := folded + 1; }
    }
    assert StopsAt(was, ids, |ids|, runs.db.Contents(), now, calendar, newId);
  }

  lemma Turn(was: Db, db: Db, ids: seq<TaskId>, now: Instant, calendar: Schedule -> Calendar, newId: TaskId -> RunId, i: nat)
    requires AllIdeal(calendar) && EachOnce(was.tasks, ids, now) && i < |ids|
    requires Passed(was, ids, i, db, now, calendar, newId)
    ensures ids[i] in was.tasks && Dispatchable(was.tasks[ids[i]], now)
    ensures ids[i] in db.tasks && db.tasks[ids[i]] == was.tasks[ids[i]] && Ideal(calendar(was.tasks[ids[i]].schedule))
    ensures FoldsAt(was, ids, i, now, calendar, newId)
            <==> Folds(db, ids[i], now, calendar(was.tasks[ids[i]].schedule))
    ensures var next := calendar(was.tasks[ids[i]].schedule);
            if Aborts(db, ids[i], now, next, newId(ids[i])) then StopsAt(was, ids, i, db, now, calendar, newId)
            else Passed(was, ids, i + 1, Poll(db, ids[i], now, next, newId(ids[i])), now, calendar, newId)
  {
    ListedRow(was, ids, now, calendar, newId, i);
    OneMorePoll(was, ids, i, now, calendar, newId, was.tasks[ids[i]]);
  }

  /** When a listed task's turn comes its row is still the one the list was read with. */
  lemma ListedRow(db: Db, ids: seq<TaskId>, now: Instant, calendar: Schedule -> Calendar, newId: TaskId -> RunId, i: nat)
    requires AllIdeal(calendar) && EachOnce(db.tasks, ids, now) && i < |ids|
    ensures ids[i] in db.tasks && Dispatchable(db.tasks[ids[i]], now)
    ensures var before := PollEach(db, ids[..i], now, calendar, newId);
            ids[i] in before.tasks && before.tasks[ids[i]] == db.tasks[ids[i]]
  {
    PollsMoveTheirTasks(db, ids[..i], now, calendar, newId, ids[i]);
  }

  predicate AllDue(tasks: map<TaskId, Task>, ids: seq<TaskId>) {
    forall i :: 0 <= i < |ids| ==> ids[i] in tasks && tasks[ids[i]].nextDueAt.Some?
  }

  lemma OneMorePoll(db: Db, ids: seq<TaskId>, i: nat, now: Instant, calendar: Schedule -> Calendar, newId: TaskId -> RunId,
                    task: Task)
    requires AllIdeal(calendar) && i < |ids|
    requires var before := PollEach(db, ids[..i], now, calendar, newId);
             ids[i] in before.tasks && before.tasks[ids[i]] == task
    ensures PollEach(db, ids[..i + 1], now, calendar, newId)
            == Poll(PollEach(db, ids[..i], now, calendar, newId), ids[i], now, calendar(task.schedule), newId(ids[i]))
  {
    var longer := ids[..i + 1];
    assert longer[..i] == ids[..i] && longer[i] == ids[i];
  }

  lemma DueIsFolded(t: Task, now: Instant, next: Calendar)
    requires Ideal(next) && DueOccurrence(t, now, next).Some?
    ensures var due := DueOccurrence(t, now, next).value;
            due.folded <==> t.nextDueAt.value > now || t.nextDueAt != Some(due.scheduledFor)
  {
  }

  /** One task of the list, with the row the list was read with. */
  method PollTask(runs: RunStore.RunStore, id: TaskId, task: Task, now: Instant, next: Calendar, newRun: RunId)
    returns (created: bool, folded: bool, failed: bool)
    requires Ideal(next) && id in runs.db.tasks && runs.db.tasks[id] == task && Dispatchable(task, now)
    modifies runs.db
    ensures runs.db.Contents() == Poll(old(runs.db.Contents()), id, now, next, newRun)
    ensures failed <==> Aborts(old(runs.db.Contents()), id, now, next, newRun)
    ensures failed ==> runs.db.Contents() == old(runs.db.Contents()) && !created && !folded
    ensures |runs.db.runs| == |old(runs.db.runs)| + if created then 1 else 0
    ensures task.nextDueAt.Some? && !failed ==> created || folded
    ensures folded <==> !failed && Folds(old(runs.db.Contents()), id, now, next)
  {
    created, folded, failed := false, false, false;
    var due := DueOccurrence(task, now, next);
    forall o ensures StaleDates.Owed(task, o, now, next) <==> due.Some? && due.value.scheduledFor == o {
      StaleDates.OwedIsDue(task, now, next, o);
    }
    if due.Some? { DueIsFolded(task, now, next); }
    assert due.Some? ==> StaleDates.Owed(task, due.value.scheduledFor, now, next);
    if due.Some? {
      var result := runs.CreateDue(id, task.nextDueAt.value, due.value.scheduledFor, due.value.nextDueAt, newRun, now);
      failed, created := result.Aborted?, result.Created?;
      folded := !failed && (due.value.folded || result.ActiveRun?);
    }
  }
}

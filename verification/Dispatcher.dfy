/** Turning occurrences of a calendar into runs, and folding the ones that are missed. */
module Dispatcher {
  import opened Records
  import opened Tables

  // ---------- calendars ----------

  /** `next(t)` is the first occurrence after `t`. */
  type Calendar = Instant -> Instant

  /** An ideal calendar: the next occurrence lies ahead, and stays next until it comes. */
  ghost predicate Ideal(next: Calendar) {
    && (forall t :: t < next(t))
    && (forall t, u :: Waiting(next, t, u) ==> next(u) == next(t))
  }

  /** At `u` the occurrence after `t` has not come yet. */
  ghost predicate Waiting(next: Calendar, t: Instant, u: Instant) { t <= u < next(t) }

  ghost predicate Occurs(next: Calendar, o: Instant) { next(o - 1) == o }

  lemma NextOccurs(next: Calendar, t: Instant)
    requires Ideal(next)
    ensures Occurs(next, next(t))
    ensures forall o :: t < o && Occurs(next, o) ==> next(t) <= o
  {
    assert Waiting(next, t, next(t) - 1);
    forall o | t < o && Occurs(next, o) ensures next(t) <= o {
      if o - 1 < next(t) { assert Waiting(next, t, o - 1); }
    }
  }

  /** `latestAtOrBefore`: the last occurrence in `(after, through]`, if there is one. */
  function Latest(next: Calendar, after: Instant, through: Instant): Option<Instant>
    requires Ideal(next)
    decreases through - after
  {
    if next(after) > through then None
    else
      var later := Latest(next, next(after), through);
      if later.Some? then later else Some(next(after))
  }

  lemma LatestIsLast(next: Calendar, after: Instant, through: Instant)
    requires Ideal(next)
    ensures var latest := Latest(next, after, through);
            && (latest.Some? ==> after < latest.value <= through && Occurs(next, latest.value))
            && (forall o :: after < o <= through && Occurs(next, o) ==> latest.Some? && o <= latest.value)
    decreases through - after
  {
    NextOccurs(next, after);
    if next(after) <= through {
      LatestIsLast(next, next(after), through);
    }
  }

  // ---------- dispatching ----------

  datatype Due = Due(scheduledFor: Instant, nextDueAt: Option<Instant>, folded: bool)

  function DueOccurrence(t: Task, now: Instant, next: Calendar): Option<Due>
    requires Ideal(next)
  {
    if t.nextDueAt.None? then None
    else if t.latestMissedAt.Some? && t.nextDueAt.value > now
    then Some(Due(t.latestMissedAt.value, t.nextDueAt, true))
    else if t.nextDueAt.value > now then None
    else if t.schedule.Once? then Some(Due(t.nextDueAt.value, None, false))
    else
      var latest := Latest(next, t.nextDueAt.value - 1, now);
      var at := if latest.Some? then latest.value else t.nextDueAt.value;
      Some(Due(at, Some(next(now)), at != t.nextDueAt.value))
  }

  /** The `where` clause of `listDispatchable`. */
  predicate Dispatchable(t: Task, now: Instant) {
    t.state.Active? && ((t.nextDueAt.Some? && t.nextDueAt.value <= now) || t.latestMissedAt.Some?)
  }

  /** What one poll does for one task, from reading its row to `createDue`. */
  function Poll(db: Db, task: TaskId, now: Instant, next: Calendar, newRun: RunId): Db
    requires Ideal(next)
  {
    if task !in db.tasks || !Dispatchable(db.tasks[task], now) then db
    else
      var due := DueOccurrence(db.tasks[task], now, next);
      if due.None? then db
      else CreateDue(db, task, db.tasks[task].nextDueAt.value, due.value.scheduledFor, due.value.nextDueAt, newRun, now).0
  }

  /** The `createDue` of that poll throws. */
  predicate Aborts(db: Db, task: TaskId, now: Instant, next: Calendar, newRun: RunId)
    requires Ideal(next) && task in db.tasks
  {
    var due := DueOccurrence(db.tasks[task], now, next);
    && Dispatchable(db.tasks[task], now) && due.Some?
    && CreateDue(db, task, db.tasks[task].nextDueAt.value, due.value.scheduledFor, due.value.nextDueAt, newRun, now).1.Aborted?
  }
}

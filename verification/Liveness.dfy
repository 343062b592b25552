/** Admission never deadlocks: queued work can always be claimed once nothing is processing. */
module Liveness {
  import opened Records
  import opened Tables
  import opened Protocol
  import opened Coupling

  ghost function Pick<T(!new)>(s: set<T>): T
    requires s != {}
  {
    var x :| x in s; x
  }

  lemma FirstEvent(db: Db, ids: set<EventId>) returns (first: EventId)
    requires ids != {} && ids <= db.events.Keys
    ensures first in ids
    ensures forall other :: other in ids && other != first ==> Before(first, db.events[first], other, db.events[other])
  {
    var some := Pick(ids);
    if ids == {some} {
      first := some;
    } else {
      var rest := FirstEvent(db, ids - {some});
      first := if Before(some, db.events[some], rest, db.events[rest]) then some else rest;
    }
  }

  lemma FirstRun(db: Db, ids: set<RunId>) returns (first: RunId)
    requires ids != {} && ids <= db.runs.Keys
    ensures first in ids
    ensures forall other :: other in ids ==> RunFirst(db.runs[first], db.runs[other])
  {
    var some := Pick(ids);
    if ids == {some} {
      first := some;
    } else {
      var rest := FirstRun(db, ids - {some});
      first := if RunFirst(db.runs[some], db.runs[rest]) then some else rest;
    }
  }

  ghost predicate Idle(db: Db) { ProcessingEvents(db) == {} && ProcessingRuns(db) == {} }

  ghost predicate Due(db: Db, now: Instant) {
    forall e :: e in db.events && db.events[e].status.Queued? ==> db.events[e].nextAttemptAt <= now
  }

  /** A message waits: the earliest active event of its conversation can be claimed. */
  lemma SomeEventClaimable(db: Db, e: EventId, now: Instant) returns (id: EventId)
    requires Idle(db) && Due(db, now) && e in db.events && db.events[e].status.Queued?
    ensures Claimable(db, id, now) && Slots(db) == ADMISSION_CONCURRENCY
  {
    var rivals := set o | o in db.events && db.events[o].Active()
                          && db.events[o].conversation == db.events[e].conversation;
    assert e in rivals;
    id := FirstEvent(db, rivals);
    assert id !in ProcessingEvents(db);
    forall r | r in db.runs ensures !db.runs[r].status.Processing? { assert r !in ProcessingRuns(db); }
  }

  /** Only runs wait: the earliest one is selected, and its task lets it start. */
  lemma SomeRunStarts(db: Db, r: RunId, now: Instant) returns (first: RunId)
    requires Idle(db) && CouplingInv(db) && r in db.runs && db.runs[r].status.Queued?
    requires forall e :: e in db.events ==> !db.events[e].status.Queued?
    ensures NextRun(db, first, now) && MayStart(db, first, db.runs[first].task)
  {
    forall e | e in db.events ensures !db.events[e].status.Processing? { assert e !in ProcessingEvents(db); }
    var queued := set o | o in db.runs && db.runs[o].status.Queued?;
    assert r in queued;
    first := FirstRun(db, queued);
    assert first in queued;
    assert ReadyRun(db, first, now);
    forall other | other in db.runs && ReadyRun(db, other, now) ensures RunFirst(db.runs[first], db.runs[other]) {
      assert other in queued;
    }
  }

  /** In every reachable state where nothing is processing, nobody holds the admission lock
    * and something is queued, once every retry instant has passed either `claimReady(1)`
    * claims an event or `claimNext` starts a run. */
  lemma NoDeadlock(states: seq<System>, steps: seq<Step>, i: nat, now: Instant)
    returns (step: Step, commit: Step)
    requires IsRun(states, steps) && i < |states|
    requires Idle(states[i].db) && states[i].lock.None? && Due(states[i].db, now)
    requires (exists e :: e in states[i].db.events && states[i].db.events[e].status.Queued?)
             || (exists r :: r in states[i].db.runs && states[i].db.runs[r].status.Queued?)
    ensures Enabled(states[i], step)
    ensures (step.ClaimReady? && step.limit == 1 && |step.batch| == 1)
            || (step.SelectRun? && commit.CommitRun? && Enabled(After(states[i], step), commit)
                && ProcessingRuns(After(After(states[i], step), commit).db) == {step.run})
  {
    var db := states[i].db;
    if e :| e in db.events && db.events[e].status.Queued? {
      var id := SomeEventClaimable(db, e, now);
      step, commit := ClaimReady({id}, 1, now, now), AbandonClaim;
    } else {
      CouplingAlways(states, steps, i);
      var r :| r in db.runs && db.runs[r].status.Queued?;
      var first := SomeRunStarts(db, r, now);
      step, commit := SelectRun(first, now), CommitRun(now);
      SelectedRunStarts(states[i], first, now);
    }
  }

  lemma SelectedRunStarts(s: System, r: RunId, now: Instant)
    requires Idle(s.db) && s.lock.None? && NextRun(s.db, r, now) && MayStart(s.db, r, s.db.runs[r].task)
    ensures Enabled(s, SelectRun(r, now)) && Enabled(After(s, SelectRun(r, now)), CommitRun(now))
    ensures ProcessingRuns(After(After(s, SelectRun(r, now)), CommitRun(now)).db) == {r}
  {
    var after := After(After(s, SelectRun(r, now)), CommitRun(now)).db;
    assert forall o :: o in s.db.runs ==> o !in ProcessingRuns(s.db);
    assert ProcessingRuns(after) == {r};
  }
}

/** The shared database of the stores: four tables that transactions rewrite in place. */
module Database {
  import opened Records
  import opened Tables
  import opened Protocol

  class Database {
    var events: map<EventId, Event>
    var runs: map<RunId, Run>
    var tasks: map<TaskId, Task>
    var revisions: map<(TaskId, nat), Revision>

    constructor ()
      ensures Contents() == Tables.EMPTY
    {
      events, runs, tasks, revisions := map[], map[], map[], map[];
    }

    function Contents(): Db
      reads this
    {
      Db(events, runs, tasks, revisions)
    }
  }

  /** The transaction is this step of the protocol, taken while nobody holds the admission lock. */
  ghost predicate Takes(a: Db, step: Step, b: Db) {
    Enabled(System(a, None), step) && After(System(a, None), step).db == b
  }

  method Choose<T(==)>(s: set<T>) returns (x: T)
    requires s != {}
    ensures x in s
  {
    x :| x in s;
  }

  /** `order by received_at, event_id limit 1`. */
  method EarliestEvent(events: map<EventId, Event>, ids: set<EventId>) returns (first: EventId)
    requires ids != {} && ids <= events.Keys
    ensures first in ids
    ensures forall other :: other in ids && other != first ==> Before(first, events[first], other, events[other])
  {
    first := Choose(ids);
    var rest := ids - {first};
    while rest != {}
      invariant first in ids && rest <= ids
      invariant forall other :: other in ids - rest && other != first
                                ==> Before(first, events[first], other, events[other])
      decreases |rest|
    {
      var id := Choose(rest);
      if Before(id, events[id], first, events[first]) { first := id; }
      rest := rest - {id};
    }
  }

  /** `order by scheduled_for, created_at limit 1`. */
  method EarliestRun(runs: map<RunId, Run>, ids: set<RunId>) returns (first: RunId)
    requires ids != {} && ids <= runs.Keys
    ensures first in ids
    ensures forall other :: other in ids ==> RunFirst(runs[first], runs[other])
  {
    first := Choose(ids);
    var rest := ids - {first};
    while rest != {}
      invariant first in ids && rest <= ids
      invariant forall other :: other in ids - rest ==> RunFirst(runs[first], runs[other])
      decreases |rest|
    {
      var id := Choose(rest);
      if !RunFirst(runs[first], runs[id]) { first := id; }
      rest := rest - {id};
    }
  }

  /** `order by scheduled_for desc limit 1`. */
  method LatestRun(runs: map<RunId, Run>, ids: set<RunId>) returns (last: RunId)
    requires ids != {} && ids <= runs.Keys
    ensures last in ids
    ensures forall other :: other in ids ==> runs[other].scheduledFor <= runs[last].scheduledFor
  {
    last := Choose(ids);
    var rest := ids - {last};
    while rest != {}
      invariant last in ids && rest <= ids
      invariant forall other :: other in ids - rest ==> runs[other].scheduledFor <= runs[last].scheduledFor
      decreases |rest|
    {
      var id := Choose(rest);
      if runs[last].scheduledFor < runs[id].scheduledFor { last := id; }
      rest := rest - {id};
    }
  }
}

/** `PostgresEventStore`: one method per transaction on `processed_events`. */
module EventStore {
  import opened Records
  import opened Database
  import opened Protocol
  import Tables
  import EventRows

  /** What `complete` and `markReplyUncertain` answer. */
  datatype Terminal = Stale | Ended(reaction: Option<string>)

  /** The rows of a batch in claim order. */
  ghost predicate InOrder(events: map<EventId, Event>, batch: seq<EventId>) {
    && (forall i :: 0 <= i < |batch| ==> batch[i] in events)
    && (forall i, j :: 0 <= i < j < |batch| ==> Before(batch[i], events[batch[i]], batch[j], events[batch[j]]))
  }

  ghost function Ids(batch: seq<EventId>): set<EventId> { set i | 0 <= i < |batch| :: batch[i] }

  /** The transaction has written this one event row and nothing else. */
  ghost predicate OnlyRow(was: Tables.Db, after: Tables.Db, id: EventId, row: Event) {
    after == was.(events := was.events[id := row])
  }

  class EventStore {
    const db: Database

    constructor (db: Database)
      ensures this.db == db
    {
      this.db := db;
    }

    method Enqueue(id: EventId, conversation: ChatId, unsupported: bool, now: Instant) returns (queued: bool)
      modifies db
      ensures queued <==> id !in old(db.events)
      ensures Takes(old(db.Contents()), Step.Enqueue(id, conversation, unsupported, now), db.Contents())
      ensures id in db.events && (!queued ==> db.Contents() == old(db.Contents()))
      ensures queued ==> OnlyRow(old(db.Contents()), db.Contents(), id,
                                 Event(conversation, unsupported, now, EventStatus.Queued, 0, now,
                                       None, None, None, None, None, None, None, None))
    {
      queued := id !in db.events;
      if queued {
        var row := Event(conversation, unsupported, now, EventStatus.Queued, 0, now,
                         None, None, None, None, None, None, None, None);
        db.events := db.events[id := row];
      }
    }

    /** Claims ready rows in order until the capacity, the limit or the rows are exhausted;
      * rows that another transaction has locked are skipped. */
    method ClaimReady(limit: int, leaseUntil: Instant, now: Instant, locked: set<EventId>) returns (batch: seq<EventId>)
      modifies db
      ensures |batch| <= Max(0, Min(Tables.Slots(old(db.Contents())), limit))
      ensures Picked(old(db.events), batch, Ready(old(db.Contents()), now, locked))
      ensures |batch| < Min(Tables.Slots(old(db.Contents())), limit) ==>
                Ids(batch) == Ready(old(db.Contents()), now, locked)
      ensures db.Contents() == Tables.ClaimRows(old(db.Contents()), Ids(batch), leaseUntil)
      ensures limit >= 0 ==> Takes(old(db.Contents()), Step.ClaimReady(Ids(batch), limit, leaseUntil, now), db.Contents())
      // who is claimed, in which order, and who is left waiting
      ensures forall id :: id in batch ==> id !in locked && Admissible(old(db.Contents()), id, now)
      ensures forall i, j :: 0 <= i < j < |batch| ==> Earlier(old(db.events), batch[i], batch[j])
      ensures batch != [] ==> |batch| <= limit && |batch| + Working(old(db.Contents())) <= 4
      ensures forall id :: Admissible(old(db.Contents()), id, now) && id !in locked && id !in batch ==>
                && (|batch| >= limit || |batch| + Working(old(db.Contents())) >= 4)
                && forall other :: other in batch ==> Earlier(old(db.events), other, id)
      // what becomes of the rows
      ensures db.Contents() == old(db.Contents()).(events := db.events) && db.events.Keys == old(db.events).Keys
      ensures forall id :: id in old(db.events) ==>
                var row := old(db.events)[id];
                db.events[id] == if id in batch
                                 then row.(status := EventStatus.Processing, attempts := row.attempts + 1,
                                           leasedUntil := Some(leaseUntil))
                                 else row
    {
      ghost var was := db.Contents();
      batch := [];
      if limit > 0 {
        batch := Candidates(db.events, Ready(db.Contents(), now, locked), Min(Tables.Slots(db.Contents()), limit));
      }
      db.events := ClaimEach(db.events, batch, leaseUntil);
      RowsClaimed(was, db.events, batch, leaseUntil);
      ClaimIsAStep(was, batch, limit, leaseUntil, now, locked);
      BatchIsAdmissible(was, batch, limit, now, locked);
    }

    /** Whether the claim still owns the row. */
    predicate Owns(id: EventId, attempt: nat)
      reads db
    {
      id in db.events && db.events[id].OwnedBy(attempt)
    }

    method AttachProcessingReaction(id: EventId, reaction: string, now: Instant) returns (attached: bool)
      modifies db
      ensures Takes(old(db.Contents()), Step.EventCall(id, EventRows.AttachReaction(reaction), now), db.Contents())
      ensures attached <==> id in old(db.events) && old(db.events)[id].Active() && old(db.events)[id].reaction.None?
      ensures attached ==> OnlyRow(old(db.Contents()), db.Contents(), id, old(db.events)[id].(reaction := Some(reaction)))
      ensures !attached ==> db.Contents() == old(db.Contents())
    {
      attached := id in db.events && db.events[id].Active() && db.events[id].reaction.None?;
      if attached { db.events := db.events[id := db.events[id].(reaction := Some(reaction))]; }
    }

    method Complete(id: EventId, attempt: nat, message: Option<string>, error: Option<string>, now: Instant)
      returns (answer: Terminal)
      modifies db
      ensures Takes(old(db.Contents()), Step.EventCall(id, EventRows.Complete(attempt, message, error), now), db.Contents())
      ensures answer == if old(Owns(id, attempt)) then Ended(old(db.events[id].reaction)) else Stale
      ensures answer.Stale? ==> db.Contents() == old(db.Contents())
      ensures answer.Ended? ==> OnlyRow(old(db.Contents()), db.Contents(), id, old(db.events[id]).(
                status := EventStatus.Completed, leasedUntil := None, reaction := None,
                outcome := Some(Outcome(message, error, None, None))))
    {
      if !Owns(id, attempt) { return Stale; }
      var row := db.events[id];
      db.events := db.events[id := row.(status := EventStatus.Completed, leasedUntil := None, reaction := None,
                                        outcome := Some(Outcome(message, error, None, None)))];
      answer := Ended(row.reaction);
    }

    method MarkReplyUncertain(id: EventId, attempt: nat, now: Instant) returns (answer: Terminal)
      modifies db
      ensures Takes(old(db.Contents()), Step.EventCall(id, EventRows.MarkReplyUncertain(attempt), now), db.Contents())
      ensures answer == if old(Owns(id, attempt)) then Ended(old(db.events[id].reaction)) else Stale
      ensures answer.Stale? ==> db.Contents() == old(db.Contents())
      ensures answer.Ended? ==> OnlyRow(old(db.Contents()), db.Contents(), id, old(db.events[id]).(
                status := EventStatus.Failed, leasedUntil := None, reaction := None,
                outcome := Some(Outcome(None, Some("reply_uncertain"), None, None))))
    {
      if !Owns(id, attempt) { return Stale; }
      var row := db.events[id];
      db.events := db.events[id := row.(status := EventStatus.Failed, leasedUntil := None, reaction := None,
                                        outcome := Some(Outcome(None, Some("reply_uncertain"), None, None)))];
      answer := Ended(row.reaction);
    }

    method MarkReplyStarted(id: EventId, attempt: nat, key: EventId, at: Instant, text: string, kind: ReplyKind,
                            now: Instant) returns (owned: bool)
      modifies db
      ensures Takes(old(db.Contents()), Step.EventCall(id, EventRows.MarkReplyStarted(attempt, key, at, text, kind), now),
                    db.Contents())
      ensures owned == old(Owns(id, attempt)) && (!owned ==> db.Contents() == old(db.Contents()))
      ensures owned ==> OnlyRow(old(db.Contents()), db.Contents(), id, old(db.events[id]).(
                replyKey := Some(key), replyAt := Some(at), outcome := Some(Outcome(None, None, Some(text), Some(kind)))))
    {
      owned := Owns(id, attempt);
      if owned {
        db.events := db.events[id := db.events[id].(replyKey := Some(key), replyAt := Some(at),
                                     outcome := Some(Outcome(None, None, Some(text), Some(kind))))];
      }
    }

    method MarkProgressAttempted(id: EventId, attempt: nat, at: Instant, now: Instant) returns (admitted: bool)
      modifies db
      ensures Takes(old(db.Contents()), Step.EventCall(id, EventRows.MarkProgressAttempted(attempt, at), now), db.Contents())
      ensures admitted <==> old(Owns(id, attempt)) && old(db.events[id]).replyAt.None? && old(db.events[id]).progressAt.None?
      ensures admitted ==> OnlyRow(old(db.Contents()), db.Contents(), id, old(db.events[id]).(progressAt := Some(at)))
      ensures !admitted ==> db.Contents() == old(db.Contents())
    {
      admitted := Owns(id, attempt) && db.events[id].replyAt.None? && db.events[id].progressAt.None?;
      if admitted { db.events := db.events[id := db.events[id].(progressAt := Some(at))]; }
    }

    method ConfirmProgressSent(id: EventId, attempt: nat, message: string, now: Instant) returns (confirmed: bool)
      modifies db
      ensures Takes(old(db.Contents()), Step.EventCall(id, EventRows.ConfirmProgressSent(attempt, message), now), db.Contents())
      ensures confirmed <==> old(Owns(id, attempt) && db.events[id].progressAt.Some? && db.events[id].progressMessage.None?
                                 && db.events[id].replyAt.None?)
      ensures confirmed ==> OnlyRow(old(db.Contents()), db.Contents(), id, old(db.events[id]).(progressMessage := Some(message)))
      ensures !confirmed ==> db.Contents() == old(db.Contents())
    {
      confirmed := Owns(id, attempt) && db.events[id].progressAt.Some? && db.events[id].progressMessage.None?
                   && db.events[id].replyAt.None?;
      if confirmed { db.events := db.events[id := db.events[id].(progressMessage := Some(message))]; }
    }

    method Retry(id: EventId, attempt: nat, error: string, nextAttemptAt: Instant, now: Instant) returns (owned: bool)
      modifies db
      ensures Takes(old(db.Contents()), Step.EventCall(id, EventRows.Retry(attempt, error, nextAttemptAt), now), db.Contents())
      ensures owned == old(Owns(id, attempt))
      ensures !owned ==> db.Contents() == old(db.Contents())
      ensures owned ==>
                var outcome := old(db.events[id]).outcome;
                && OnlyRow(old(db.Contents()), db.Contents(), id, old(db.events[id]).(
                     status := EventStatus.Queued, leasedUntil := None, nextAttemptAt := db.events[id].nextAttemptAt,
                     outcome := Some((if outcome.Some? then outcome.value else Outcome(None, None, None, None)).(
                       errorCode := Some(error)))))
      ensures owned ==> now + 250 <= db.events[id].nextAttemptAt <= now + 300_000
      ensures owned && now + 250 <= nextAttemptAt <= now + 300_000 ==> db.events[id].nextAttemptAt == nextAttemptAt
      ensures owned && nextAttemptAt < now + 250 ==> db.events[id].nextAttemptAt == now + 250
      ensures owned && nextAttemptAt > now + 300_000 ==> db.events[id].nextAttemptAt == now + 300_000
    {
      owned := Owns(id, attempt);
      if owned {
        var row := db.events[id];
        var at := nextAttemptAt;
        if at < now + EventRows.MIN_RETRY_DELAY { at := now + EventRows.MIN_RETRY_DELAY; }
        if at > now + EventRows.MAX_RETRY_DELAY { at := now + EventRows.MAX_RETRY_DELAY; }
        var outcome := if row.outcome.Some? then row.outcome.value else Outcome(None, None, None, None);
        db.events := db.events[id := row.(status := EventStatus.Queued, leasedUntil := None, nextAttemptAt := at,
                                          outcome := Some(outcome.(errorCode := Some(error))))];
      }
    }

    /** `beginWrite` of the agent run store, for the run of a message: the mark. */
    method BeginWrite(id: EventId, attempt: nat, now: Instant) returns (marked: bool)
      modifies db
      ensures Takes(old(db.Contents()), Step.EventCall(id, EventRows.MarkWrite(attempt), now), db.Contents())
      ensures marked == old(Owns(id, attempt))
      ensures marked ==> OnlyRow(old(db.Contents()), db.Contents(), id,
                                 old(db.events[id]).(writeStartedAt := db.events[id].writeStartedAt))
                         && db.events[id].writeStartedAt
                            == if old(db.events[id]).writeStartedAt.Some? then old(db.events[id]).writeStartedAt else Some(now)
      ensures !marked ==> db.Contents() == old(db.Contents())
    {
      marked := Owns(id, attempt);
      if marked && db.events[id].writeStartedAt.None? {
        db.events := db.events[id := db.events[id].(writeStartedAt := Some(now))];
      }
    }

    /** `clock` is the worker's clock, `now` the database's; rows locked elsewhere are skipped. */
    method RecoverExpiredLeases(clock: Instant, limit: int, now: Instant, locked: set<EventId>)
      returns (batch: set<EventId>)
      modifies db
      ensures db.Contents() == Tables.ExpireRows(old(db.Contents()), batch, now)
      ensures Takes(old(db.Contents()), Step.RecoverLeases(batch, clock, now), db.Contents())
      ensures |batch| <= Max(0, limit) && batch !! locked
      ensures |batch| < limit ==> forall id :: id in old(db.events) && EventRows.Expired(old(db.events)[id], clock)
                                               ==> id in batch || id in locked
      ensures batch <= old(db.events).Keys && FirstToLapse(old(db.events), batch, clock, locked)
      ensures forall id :: id in batch ==>
                var row := old(db.events)[id];
                row.status.Processing? && row.leasedUntil.Some? && row.leasedUntil.value <= clock
      ensures db.Contents() == old(db.Contents()).(events := db.events) && db.events.Keys == old(db.events).Keys
      ensures forall id :: id in old(db.events) ==>
                var row := old(db.events)[id];
                db.events[id] == if id in batch
                                 then row.(status := EventStatus.Queued, leasedUntil := None, nextAttemptAt := now)
                                 else row
    {
      ghost var was := db.Contents();
      batch := FirstExpired(db.events, limit, clock, locked);
      db.events := ExpireEach(db.events, batch, now);
      RowsExpired(was, db.events, batch, now);
      ExpiryIsAStep(was, batch, clock, now);
    }
  }

  // ---------- what admission promises for messages ----------

  predicate Earlier(events: map<EventId, Event>, a: EventId, b: EventId) {
    && a in events && b in events
    && (events[a].receivedAt < events[b].receivedAt || (events[a].receivedAt == events[b].receivedAt && a < b))
  }

  /** The event waits for nothing: written out, column by column. */
  ghost predicate Admissible(db: Tables.Db, id: EventId, now: Instant) {
    && id in db.events && db.events[id].status.Queued? && db.events[id].nextAttemptAt <= now
    && (forall other :: other in db.events && other != id && db.events[other].conversation == db.events[id].conversation
                        && (db.events[other].status.Queued? || db.events[other].status.Processing?)
                        ==> Earlier(db.events, id, other))
    && !exists r :: r in db.runs && db.runs[r].status.Processing? && db.runs[r].target.chat == db.events[id].conversation
  }

  /** How many events and runs are processing. */
  ghost function Working(db: Tables.Db): nat {
    |set e | e in db.events && db.events[e].status.Processing?| + |set r | r in db.runs && db.runs[r].status.Processing?|
  }

  lemma AdmissibleIsClaimable(db: Tables.Db, id: EventId, now: Instant)
    ensures Admissible(db, id, now) <==> Tables.Claimable(db, id, now)
  {
  }

  lemma SlotsAreFree(db: Tables.Db)
    ensures Tables.Slots(db) == Max(0, 4 - Working(db))
  {
    assert (set e | e in db.events && db.events[e].status.Processing?) == Tables.ProcessingEvents(db);
    assert (set r | r in db.runs && db.runs[r].status.Processing?) == Tables.ProcessingRuns(db);
  }

  lemma BatchIsAdmissible(db: Tables.Db, batch: seq<EventId>, limit: int, now: Instant, locked: set<EventId>)
    requires Picked(db.events, batch, Ready(db, now, locked)) && |batch| <= Max(0, Min(Tables.Slots(db), limit))
    requires |batch| < Min(Tables.Slots(db), limit) ==> Ids(batch) == Ready(db, now, locked)
    ensures forall id :: id in batch ==> id !in locked && Admissible(db, id, now)
    ensures forall i, j :: 0 <= i < j < |batch| ==> Earlier(db.events, batch[i], batch[j])
    ensures batch != [] ==> |batch| <= limit && |batch| + Working(db) <= 4
    ensures forall id :: Admissible(db, id, now) && id !in locked && id !in batch ==>
              && (|batch| >= limit || |batch| + Working(db) >= 4)
              && forall other :: other in batch ==> Earlier(db.events, other, id)
  {
    SlotsAreFree(db);
    DistinctIds(db.events, batch);
    forall id ensures Admissible(db, id, now) <==> Tables.Claimable(db, id, now) { AdmissibleIsClaimable(db, id, now); }
    forall id | id in batch ensures id !in locked && Admissible(db, id, now) { assert id in Ids(batch); }
    forall id | Admissible(db, id, now) && id !in locked && id !in batch
      ensures |batch| >= limit || |batch| + Working(db) >= 4
      ensures forall other :: other in batch ==> Earlier(db.events, other, id)
    {
      assert id in Ready(db, now, locked) - Ids(batch);
    }
  }

  /** The rows that `claimReady` locks, in order. */
  method Candidates(rows: map<EventId, Event>, ready: set<EventId>, slots: nat) returns (batch: seq<EventId>)
    requires ready <= rows.Keys
    ensures Picked(rows, batch, ready) && |batch| <= slots
    ensures |batch| < slots ==> Ids(batch) == ready
  {
    batch := [];
    var waiting := ready;
    while |batch| < slots && waiting != {}
      invariant |batch| <= slots && waiting <= ready && Ids(batch) + waiting == ready
      invariant PickedBefore(rows, batch, waiting)
      decreases |waiting|
    {
      var id := EarliestEvent(rows, waiting);
      OneMorePicked(rows, batch, waiting, id);
      batch := batch + [id];
      waiting := waiting - {id};
    }
    assert ready - Ids(batch) == waiting;
  }

  method ClaimEach(rows: map<EventId, Event>, batch: seq<EventId>, leaseUntil: Instant) returns (after: map<EventId, Event>)
    requires InOrder(rows, batch)
    ensures Claimed(rows, after, batch, leaseUntil)
  {
    after := rows;
    for i := 0 to |batch|
      invariant Claimed(rows, after, batch[..i], leaseUntil)
    {
      var id := batch[i];
      assert id in rows && id !in batch[..i];
      assert id in after;
      var row := after[id];
      after := after[id := row.(status := EventStatus.Processing, attempts := row.attempts + 1,
                                      leasedUntil := Some(leaseUntil))];
      assert batch[..i + 1] == batch[..i] + [batch[i]];
    }
    assert batch[..|batch|] == batch;
  }

  /** `order by leased_until, event_id`. */
  predicate LapsedBefore(a: EventId, ea: Event, b: EventId, eb: Event) {
    && ea.leasedUntil.Some? && eb.leasedUntil.Some?
    && (ea.leasedUntil.value < eb.leasedUntil.value || (ea.leasedUntil == eb.leasedUntil && a < b))
  }

  /** No expired row outside the batch lapsed before one inside it. */
  ghost predicate FirstToLapse(rows: map<EventId, Event>, batch: set<EventId>, clock: Instant, locked: set<EventId>)
    requires batch <= rows.Keys
  {
    forall a, b :: a in batch && b in rows.Keys - batch - locked && EventRows.Expired(rows[b], clock)
                   ==> LapsedBefore(a, rows[a], b, rows[b])
  }

  method FirstLapsed(rows: map<EventId, Event>, ids: set<EventId>) returns (first: EventId)
    requires ids != {} && ids <= rows.Keys && forall id :: id in ids ==> rows[id].leasedUntil.Some?
    ensures first in ids
    ensures forall other :: other in ids && other != first ==> LapsedBefore(first, rows[first], other, rows[other])
  {
    first := Choose(ids);
    var rest := ids - {first};
    while rest != {}
      invariant first in ids && rest <= ids
      invariant forall other :: other in ids - rest && other != first ==> LapsedBefore(first, rows[first], other, rows[other])
      decreases |rest|
    {
      var id := Choose(rest);
      if LapsedBefore(id, rows[id], first, rows[first]) { first := id; }
      rest := rest - {id};
    }
  }

  method FirstExpired(rows: map<EventId, Event>, limit: int, clock: Instant, locked: set<EventId>) returns (batch: set<EventId>)
    ensures batch <= rows.Keys && batch !! locked && |batch| <= Max(0, limit)
    ensures forall id :: id in batch ==> EventRows.Expired(rows[id], clock)
    ensures |batch| < limit ==> forall id :: id in rows && EventRows.Expired(rows[id], clock) ==> id in batch || id in locked
    ensures FirstToLapse(rows, batch, clock, locked)
  {
    batch := {};
    var waiting := set id | id in rows && id !in locked && EventRows.Expired(rows[id], clock);
    while |batch| < limit && waiting != {}
      invariant |batch| <= Max(0, limit) && waiting !! batch && waiting + batch <= rows.Keys - locked
      invariant forall id :: id in waiting + batch <==> id in rows && id !in locked && EventRows.Expired(rows[id], clock)
      invariant forall a, b :: a in batch && b in waiting ==> LapsedBefore(a, rows[a], b, rows[b])
      decreases |waiting|
    {
      var id := FirstLapsed(rows, waiting);
      batch := batch + {id};
      waiting := waiting - {id};
    }
  }

  method ExpireEach(rows: map<EventId, Event>, batch: set<EventId>, now: Instant) returns (after: map<EventId, Event>)
    requires batch <= rows.Keys
    ensures Expiring(rows, after, batch, now)
  {
    after := rows;
    var rest := batch;
    while rest != {}
      invariant rest <= batch && Expiring(rows, after, batch - rest, now)
      decreases |rest|
    {
      var id := Choose(rest);
      after := after[id := after[id].(status := EventStatus.Queued, leasedUntil := None, nextAttemptAt := now)];
      assert batch - (rest - {id}) == batch - rest + {id};
      rest := rest - {id};
    }
    assert batch - {} == batch;
  }

  function Ready(db: Tables.Db, now: Instant, locked: set<EventId>): set<EventId> {
    set id | id in db.events && id !in locked && Tables.Claimable(db, id, now)
  }

  /** The batch is taken from the ready rows in claim order: nothing earlier is left behind. */
  ghost predicate Picked(rows: map<EventId, Event>, batch: seq<EventId>, ready: set<EventId>)
    requires ready <= rows.Keys
  {
    Ids(batch) <= ready && PickedBefore(rows, batch, ready - Ids(batch))
  }

  ghost predicate PickedBefore(rows: map<EventId, Event>, batch: seq<EventId>, waiting: set<EventId>)
    requires waiting <= rows.Keys
  {
    && InOrder(rows, batch)
    && Ids(batch) !! waiting
    && forall i, id :: 0 <= i < |batch| && id in waiting ==> Before(batch[i], rows[batch[i]], id, rows[id])
  }

  lemma OneMorePicked(rows: map<EventId, Event>, batch: seq<EventId>, waiting: set<EventId>, id: EventId)
    requires waiting <= rows.Keys && PickedBefore(rows, batch, waiting) && id in waiting
    requires forall other :: other in waiting && other != id ==> Before(id, rows[id], other, rows[other])
    ensures PickedBefore(rows, batch + [id], waiting - {id}) && Ids(batch + [id]) == Ids(batch) + {id}
  {
    var longer := batch + [id];
    forall x ensures x in Ids(longer) <==> x in Ids(batch) + {id} {
      if x in Ids(batch) {
        var i :| 0 <= i < |batch| && batch[i] == x;
        assert longer[i] == x;
      }
      if x == id { assert longer[|batch|] == id; }
    }
  }

  ghost predicate Claimed(a: map<EventId, Event>, b: map<EventId, Event>, batch: seq<EventId>, leaseUntil: Instant) {
    && (forall id :: id in b <==> id in a)
    && forall id :: id in a ==> b[id] == if id in batch then EventRows.Claim(a[id], leaseUntil) else a[id]
  }

  lemma RowsClaimed(was: Tables.Db, rows: map<EventId, Event>, batch: seq<EventId>, leaseUntil: Instant)
    requires InOrder(was.events, batch) && Claimed(was.events, rows, batch, leaseUntil)
    ensures was.(events := rows) == Tables.ClaimRows(was, Ids(batch), leaseUntil)
  {
    DistinctIds(was.events, batch);
    var after := Tables.ClaimRows(was, Ids(batch), leaseUntil).events;
    assert forall id :: id in rows <==> id in after;
    assert rows.Keys == after.Keys;
    assert forall id :: id in after ==> after[id] == rows[id];
    assert rows == after;
  }

  lemma ClaimIsAStep(was: Tables.Db, batch: seq<EventId>, limit: int, leaseUntil: Instant, now: Instant, locked: set<EventId>)
    requires Picked(was.events, batch, Ready(was, now, locked))
    requires limit >= 0 ==> |batch| <= Min(Tables.Slots(was), limit)
    ensures limit >= 0 ==>
      Takes(was, Step.ClaimReady(Ids(batch), limit, leaseUntil, now), Tables.ClaimRows(was, Ids(batch), leaseUntil))
  {
    DistinctIds(was.events, batch);
  }

  ghost predicate Expiring(a: map<EventId, Event>, b: map<EventId, Event>, batch: set<EventId>, now: Instant) {
    && (forall id :: id in b <==> id in a)
    && forall id :: id in a ==> b[id] == if id in batch then EventRows.Expire(a[id], now) else a[id]
  }

  lemma ExpiryIsAStep(was: Tables.Db, batch: set<EventId>, clock: Instant, now: Instant)
    requires Tables.ExpiredBatch(was, batch, clock)
    ensures Takes(was, Step.RecoverLeases(batch, clock, now), Tables.ExpireRows(was, batch, now))
  {
  }

  lemma RowsExpired(was: Tables.Db, rows: map<EventId, Event>, batch: set<EventId>, now: Instant)
    requires Expiring(was.events, rows, batch, now)
    ensures was.(events := rows) == Tables.ExpireRows(was, batch, now)
  {
    var after := Tables.ExpireRows(was, batch, now).events;
    assert forall id :: id in rows <==> id in after;
    assert rows.Keys == after.Keys;
    assert forall id :: id in after ==> after[id] == rows[id];
    assert rows == after;
  }

  lemma DistinctIds(events: map<EventId, Event>, batch: seq<EventId>)
    requires InOrder(events, batch)
    ensures |Ids(batch)| == |batch|
    ensures forall id :: id in Ids(batch) <==> id in batch
  {
    if batch != [] {
      var rest := batch[..|batch| - 1];
      DistinctIds(events, rest);
      assert Ids(batch) == Ids(rest) + {batch[|batch| - 1]};
    }
  }
}

/** One event at a time in a conversation, and the arrivals that decide about it. */
module Exclusion {
  import opened Records
  import opened Tables
  import opened Protocol
  import opened Admission
  import EventRows

  /** Arrival assumption of one step, all that exclusion needs: a new row ranks above every
    * row of its conversation that is processing at that moment. */
  ghost predicate BehindProcessing(db: Db, id: EventId, conversation: ChatId, at: Instant) {
    forall e :: e in ProcessingEvents(db) && db.events[e].conversation == conversation
                ==> Before(e, db.events[e], id, EventRows.Fresh(conversation, false, at))
  }

  ghost predicate ArrivesBehind(s: System, step: Step) {
    step.Enqueue? && step.event !in s.db.events
    ==> BehindProcessing(s.db, step.event, step.conversation, step.at)
  }

  /** A processing event is the first active event of its conversation. */
  ghost predicate HeadsInv(db: Db) { forall e :: e in ProcessingEvents(db) ==> IsHead(db, e) }

  /** Exactly when an arrival leaves every processing event at the head. */
  lemma ArrivalKeepsHeads(db: Db, id: EventId, conversation: ChatId, unsupported: bool, at: Instant)
    requires HeadsInv(db) && id !in db.events
    ensures HeadsInv(Tables.Enqueue(db, id, conversation, unsupported, at)) <==> BehindProcessing(db, id, conversation, at)
  {
    var after := Tables.Enqueue(db, id, conversation, unsupported, at);
    if BehindProcessing(db, id, conversation, at) {
      forall e | e in ProcessingEvents(after) ensures IsHead(after, e) {
        assert e in ProcessingEvents(db) && IsHead(db, e);
      }
    } else {
      var e :| e in ProcessingEvents(db) && db.events[e].conversation == conversation
               && !Before(e, db.events[e], id, EventRows.Fresh(conversation, false, at));
      assert e in ProcessingEvents(after) && !Before(e, after.events[e], id, after.events[id]);
      assert !IsHead(after, e);
    }
  }

  /** No event becomes active, and nobody but claimable events starts processing. */
  ghost predicate KeepsHeads(a: Db, b: Db, now: Instant) {
    && b.events.Keys == a.events.Keys
    && forall e :: e in a.events ==>
         && b.events[e].conversation == a.events[e].conversation && b.events[e].receivedAt == a.events[e].receivedAt
         && (b.events[e].Active() ==> a.events[e].Active())
         && (b.events[e].status.Processing? ==> a.events[e].status.Processing? || Claimable(a, e, now))
  }

  lemma KeptHeads(a: Db, b: Db, now: Instant)
    requires HeadsInv(a) && KeepsHeads(a, b, now)
    ensures HeadsInv(b)
  {
    forall e | e in ProcessingEvents(b) ensures IsHead(b, e) {
      assert e in ProcessingEvents(a) || Claimable(a, e, now);
      assert IsHead(a, e);
    }
  }

  lemma CallKeepsHeads(db: Db, id: EventId, call: EventRows.Call, now: Instant)
    ensures KeepsHeads(db, Tables.EventCall(db, id, call, now), now)
  {
    if id in db.events && EventRows.Accepts(db.events[id], call) {
      EventRows.CallsAreFenced(db.events[id], call, now);
    }
  }

  lemma StepKeepsHeads(s: System, step: Step)
    requires Enabled(s, step) && HeadsInv(s.db) && ArrivesBehind(s, step)
    ensures HeadsInv(After(s, step).db)
  {
    var after := After(s, step).db;
    match step
    case Enqueue(id, conversation, unsupported, at) =>
      if id !in s.db.events { ArrivalKeepsHeads(s.db, id, conversation, unsupported, at); }
    case ClaimReady(_, _, _, now) => KeptHeads(s.db, after, now);
    case EventCall(id, call, now) =>
      CallKeepsHeads(s.db, id, call, now);
      KeptHeads(s.db, after, now);
    case RecoverLeases(_, _, now) => KeptHeads(s.db, after, now);
    case _ =>
      SomeStepsKeepEvents(s, step);
      KeptHeads(s.db, after, 0);
  }

  lemma HeadsAlways(states: seq<System>, steps: seq<Step>, i: nat)
    requires IsRun(states, steps) && AllBehind(states, steps) && i < |states|
    ensures HeadsInv(states[i].db)
  {
    if i > 0 {
      HeadsAlways(states, steps, i - 1);
      assert states[i - 1 + 1] == After(states[i - 1], steps[i - 1]);
      StepKeepsHeads(states[i - 1], steps[i - 1]);
    }
  }

  ghost predicate AllBehind(states: seq<System>, steps: seq<Step>)
    requires |states| == |steps| + 1
  {
    forall i {:trigger steps[i]} :: 0 <= i < |steps| ==> ArrivesBehind(states[i], steps[i])
  }

  /** While no arrival ranks before an event that is processing, no two events of a
    * conversation are ever processing together. */
  lemma OneEventPerConversation(states: seq<System>, steps: seq<Step>, i: nat, a: EventId, b: EventId)
    requires IsRun(states, steps) && AllBehind(states, steps) && i < |states|
    requires a in ProcessingEvents(states[i].db) && b in ProcessingEvents(states[i].db)
    requires states[i].db.events[a].conversation == states[i].db.events[b].conversation
    ensures a == b
  {
    HeadsAlways(states, steps, i);
    assert IsHead(states[i].db, a) && IsHead(states[i].db, b);
  }

  /** The other half: an arrival that does rank before a processing event is claimed beside
    * it by the next claim that finds a slot and no run in the chat. */
  lemma OvertakingBreaksExclusion(s: System, arrival: Step, e: EventId, now: Instant, leaseUntil: Instant)
    returns (claim: Step)
    requires Enabled(s, arrival) && arrival.Enqueue? && arrival.event !in s.db.events && arrival.at <= now
    requires HeadsInv(s.db) && e in ProcessingEvents(s.db) && s.db.events[e].conversation == arrival.conversation
    requires !Before(e, s.db.events[e], arrival.event, EventRows.Fresh(arrival.conversation, false, arrival.at))
    requires Slots(s.db) > 0 && !RunsIn(s.db, arrival.conversation)
    ensures Enabled(After(s, arrival), claim) && claim == ClaimReady({arrival.event}, 1, leaseUntil, now)
    ensures var after := After(After(s, arrival), claim).db;
            && e in ProcessingEvents(after) && arrival.event in ProcessingEvents(after) && e != arrival.event
            && after.events[e].conversation == after.events[arrival.event].conversation
  {
    claim := ClaimReady({arrival.event}, 1, leaseUntil, now);
    var mid := After(s, arrival).db;
    assert IsHead(s.db, e);
    OvertakerIsHead(s.db, mid, arrival.event, e);
    assert ProcessingEvents(mid) == ProcessingEvents(s.db) && ProcessingRuns(mid) == ProcessingRuns(s.db);
    assert Claimable(mid, arrival.event, now);
  }

  lemma OvertakerIsHead(db: Db, mid: Db, id: EventId, e: EventId)
    requires id !in db.events && id in mid.events && mid.events == db.events[id := mid.events[id]]
    requires e in db.events && IsHead(db, e) && mid.events[id].conversation == db.events[e].conversation
    requires !Before(e, db.events[e], id, mid.events[id])
    ensures IsHead(mid, id)
  {
    assert Before(id, mid.events[id], e, db.events[e]);
    forall other | other in mid.events && other != id && mid.events[other].Active()
                   && mid.events[other].conversation == mid.events[id].conversation
      ensures Before(id, mid.events[id], other, mid.events[other])
    {
      assert other in db.events && (other == e || Before(e, db.events[e], other, db.events[other]));
    }
  }

  /** Orderly arrivals are all that exclusion asks for, and more. */
  lemma OrderlyArrivesBehind(s: System, step: Step)
    requires OrderInv(s.db) && Orderly(s, step)
    ensures ArrivesBehind(s, step)
  {
  }

  /** So the runs whose conversations keep their order are among those exclusion holds in. */
  lemma OrderlyRunsArriveBehind(states: seq<System>, steps: seq<Step>)
    requires IsRun(states, steps) && AllOrderly(states, steps)
    ensures AllBehind(states, steps)
  {
    forall i {:trigger steps[i]} | 0 <= i < |steps| ensures ArrivesBehind(states[i], steps[i]) {
      OrderAlways(states, steps, i);
      OrderlyArrivesBehind(states[i], steps[i]);
    }
  }
}

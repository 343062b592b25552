/** Who may be processing at the same time: capacity, the single scheduled run, the order of
  * a conversation, and no event beside a run that answers to the same chat. */
module Admission {
  import opened Records
  import opened Tables
  import opened Protocol
  import EventRows

  // ---------- counting ----------

  lemma SubsetSize<T>(small: set<T>, large: set<T>)
    requires small <= large
    ensures |small| <= |large|
  {
    if small != {} {
      var x :| x in small;
      SubsetSize(small - {x}, large - {x});
    }
  }

  lemma QuietCounts(a: Db, b: Db)
    requires Quiet(a, b)
    ensures ProcessingEvents(b) <= ProcessingEvents(a) && |ProcessingEvents(b)| <= |ProcessingEvents(a)|
    ensures ProcessingRuns(b) <= ProcessingRuns(a) && |ProcessingRuns(b)| <= |ProcessingRuns(a)|
  {
    forall id | id in ProcessingEvents(b) ensures id in ProcessingEvents(a) {}
    forall r | r in ProcessingRuns(b) ensures r in ProcessingRuns(a) {}
    SubsetSize(ProcessingEvents(b), ProcessingEvents(a));
    SubsetSize(ProcessingRuns(b), ProcessingRuns(a));
  }

  // ---------- capacity and the single scheduled run ----------

  ghost predicate WithinCapacity(db: Db) {
    && |ProcessingEvents(db)| + |ProcessingRuns(db)| <= ADMISSION_CONCURRENCY
    && |ProcessingRuns(db)| <= 1
  }

  /** What the holder of the admission lock may still rely on when it commits. */
  ghost predicate LockHolds(s: System) {
    s.lock.Some? ==>
      && ProcessingRuns(s.db) == {}
      && |ProcessingEvents(s.db)| < ADMISSION_CONCURRENCY
      && forall e :: e in ProcessingEvents(s.db) ==> s.db.events[e].conversation != s.lock.value.chat
  }

  ghost predicate CapacityInv(s: System) {
    WithinCapacity(s.db) && LockHolds(s)
  }

  lemma ClaimFillsSlots(db: Db, batch: set<EventId>, leaseUntil: Instant, now: Instant)
    requires WithinCapacity(db)
    requires forall id :: id in batch ==> Claimable(db, id, now)
    requires |batch| <= Slots(db)
    ensures WithinCapacity(ClaimRows(db, batch, leaseUntil))
    ensures ProcessingEvents(ClaimRows(db, batch, leaseUntil)) == ProcessingEvents(db) + batch
  {
    var after := ClaimRows(db, batch, leaseUntil);
    forall id | id in batch ensures id in ProcessingEvents(after) && id !in ProcessingEvents(db) {
      assert Claimable(db, id, now);
    }
    forall id | id in ProcessingEvents(after) ensures id in ProcessingEvents(db) + batch {}
    forall id | id in ProcessingEvents(db) ensures id in ProcessingEvents(after) {}
    assert ProcessingEvents(after) == ProcessingEvents(db) + batch;
    assert ProcessingRuns(after) == ProcessingRuns(db);
  }

  lemma StartAddsOneRun(db: Db, r: RunId, task: TaskId, leaseUntil: Instant)
    ensures var after := StartRun(db, r, task, leaseUntil);
            && ProcessingEvents(after) == ProcessingEvents(db)
            && ProcessingRuns(after) == ProcessingRuns(db) + if MayStart(db, r, task) then {r} else {}
  {
  }

  lemma StepKeepsCapacity(s: System, step: Step)
    requires Enabled(s, step) && CapacityInv(s)
    ensures CapacityInv(After(s, step))
  {
    var after := After(s, step);
    if step.ClaimReady? {
      ClaimFillsSlots(s.db, step.batch, step.leaseUntil, step.now);
    } else if step.CommitRun? {
      StartAddsOneRun(s.db, s.lock.value.run, s.lock.value.task, step.leaseUntil);
    } else {
      QuietSteps(s, step);
      QuietCounts(s.db, after.db);
      assert |ProcessingRuns(s.db)| == 0 ==> ProcessingRuns(s.db) == {};
      if after.lock.Some? {
        forall e | e in ProcessingEvents(after.db)
          ensures after.db.events[e].conversation != after.lock.value.chat
        {
          assert e in ProcessingEvents(s.db);
        }
      }
    }
  }

  /** In every reachable state at most four events and runs are processing together, and
    * at most one of them is a run; batched claims, crashes and transactions that slip
    * between the two halves of `claimNext` included. */
  lemma CapacityAlways(states: seq<System>, steps: seq<Step>, i: nat)
    requires IsRun(states, steps) && i < |states|
    ensures CapacityInv(states[i])
  {
    if i > 0 {
      CapacityAlways(states, steps, i - 1);
      assert states[i - 1 + 1] == After(states[i - 1], steps[i - 1]);
      StepKeepsCapacity(states[i - 1], steps[i - 1]);
    }
  }

  // ---------- order within a conversation ----------

  /** Arrival assumption of one step: a new row ranks above every row of its
    * conversation that is active and has been claimed before. */
  ghost predicate InOrder(db: Db, id: EventId, conversation: ChatId, at: Instant) {
    forall e :: e in db.events && db.events[e].Active() && db.events[e].attempts > 0
                && db.events[e].conversation == conversation
                ==> Before(e, db.events[e], id, EventRows.Fresh(conversation, false, at))
  }

  ghost predicate Orderly(s: System, step: Step) {
    step.Enqueue? && step.event !in s.db.events
    ==> InOrder(s.db, step.event, step.conversation, step.at)
  }

  /** An active event that was ever claimed is the first active event of its conversation. */
  ghost predicate OrderInv(db: Db) {
    && (forall e :: e in db.events && db.events[e].Active() && db.events[e].attempts > 0 ==> IsHead(db, e))
    && (forall e :: e in db.events && db.events[e].status.Processing? ==> db.events[e].attempts > 0)
  }

  lemma SomeStepsKeepEvents(s: System, step: Step)
    requires Enabled(s, step)
    ensures step.Enqueue? || step.ClaimReady? || step.EventCall? || step.RecoverLeases?
            || After(s, step).db.events == s.db.events
  {
  }

  lemma CallKeepsOrder(db: Db, id: EventId, call: EventRows.Call, now: Instant)
    requires OrderInv(db)
    ensures OrderInv(Tables.EventCall(db, id, call, now))
  {
    if id in db.events && EventRows.Accepts(db.events[id], call) {
      EventRows.CallsAreFenced(db.events[id], call, now);
      var after := Tables.EventCall(db, id, call, now);
      forall e | e in after.events && after.events[e].Active() && after.events[e].attempts > 0
        ensures IsHead(after, e)
      {
        assert IsHead(db, e);
      }
    }
  }

  lemma ClaimKeepsOrder(db: Db, batch: set<EventId>, leaseUntil: Instant, now: Instant)
    requires OrderInv(db)
    requires forall id :: id in batch ==> Claimable(db, id, now)
    ensures OrderInv(ClaimRows(db, batch, leaseUntil))
  {
    var after := ClaimRows(db, batch, leaseUntil);
    forall e | e in after.events && after.events[e].Active() && after.events[e].attempts > 0
      ensures IsHead(after, e)
    {
      assert IsHead(db, e);
    }
  }

  lemma ExpiryKeepsOrder(db: Db, batch: set<EventId>, clock: Instant, now: Instant)
    requires OrderInv(db) && ExpiredBatch(db, batch, clock)
    ensures OrderInv(ExpireRows(db, batch, now))
  {
    var after := ExpireRows(db, batch, now);
    forall e | e in after.events && after.events[e].Active() && after.events[e].attempts > 0
      ensures IsHead(after, e)
    {
      assert IsHead(db, e);
    }
  }

  /** Exactly when an arrival keeps the order: if and only if it arrives in order. */
  lemma ArrivalKeepsOrder(db: Db, id: EventId, conversation: ChatId, unsupported: bool, at: Instant)
    requires OrderInv(db) && id !in db.events
    ensures OrderInv(Tables.Enqueue(db, id, conversation, unsupported, at)) <==> InOrder(db, id, conversation, at)
  {
    var after := Tables.Enqueue(db, id, conversation, unsupported, at);
    if InOrder(db, id, conversation, at) {
      forall e | e in after.events && after.events[e].Active() && after.events[e].attempts > 0
        ensures IsHead(after, e)
      {
        assert IsHead(db, e);
      }
    } else {
      var e :| e in db.events && db.events[e].Active() && db.events[e].attempts > 0
               && db.events[e].conversation == conversation
               && !Before(e, db.events[e], id, EventRows.Fresh(conversation, false, at));
      assert !Before(e, after.events[e], id, after.events[id]);
      assert !IsHead(after, e);
    }
  }

  lemma StepKeepsOrder(s: System, step: Step)
    requires Enabled(s, step) && OrderInv(s.db) && Orderly(s, step)
    ensures OrderInv(After(s, step).db)
  {
    match step
    case Enqueue(id, conversation, unsupported, at) =>
      if id !in s.db.events { ArrivalKeepsOrder(s.db, id, conversation, unsupported, at); }
    case ClaimReady(batch, _, leaseUntil, now) => ClaimKeepsOrder(s.db, batch, leaseUntil, now);
    case EventCall(id, call, now) => CallKeepsOrder(s.db, id, call, now);
    case RecoverLeases(batch, clock, now) => ExpiryKeepsOrder(s.db, batch, clock, now);
    case _ =>
      SomeStepsKeepEvents(s, step);
      forall e | e in s.db.events && IsHead(s.db, e) ensures IsHead(After(s, step).db, e) {}
  }

  ghost predicate AllOrderly(states: seq<System>, steps: seq<Step>)
    requires |states| == |steps| + 1
  {
    forall i {:trigger steps[i]} :: 0 <= i < |steps| ==> Orderly(states[i], steps[i])
  }

  lemma OrderAlways(states: seq<System>, steps: seq<Step>, i: nat)
    requires IsRun(states, steps) && AllOrderly(states, steps) && i < |states|
    ensures OrderInv(states[i].db)
  {
    if i > 0 {
      OrderAlways(states, steps, i - 1);
      assert states[i - 1 + 1] == After(states[i - 1], steps[i - 1]);
      StepKeepsOrder(states[i - 1], steps[i - 1]);
    }
  }

  /** With orderly arrivals, once an event has been claimed every earlier event of its
    * conversation is terminal for as long as the event is active. */
  lemma EarlierEventsAreTerminal(states: seq<System>, steps: seq<Step>, i: nat, earlier: EventId, e: EventId)
    requires IsRun(states, steps) && AllOrderly(states, steps) && i < |states|
    requires e in states[i].db.events && states[i].db.events[e].Active() && states[i].db.events[e].attempts > 0
    requires earlier in states[i].db.events
    requires states[i].db.events[earlier].conversation == states[i].db.events[e].conversation
    requires Before(earlier, states[i].db.events[earlier], e, states[i].db.events[e])
    ensures !states[i].db.events[earlier].Active()
  {
    OrderAlways(states, steps, i);
    assert IsHead(states[i].db, e);
  }

  /** Even without the arrival assumption: at the moment a claim commits, every earlier
    * event of the conversation that has arrived is terminal. */
  lemma ClaimWaitsForEarlier(s: System, step: Step, earlier: EventId, e: EventId)
    requires Enabled(s, step) && e in s.db.events && earlier in s.db.events
    requires After(s, step).db.events[e].attempts != s.db.events[e].attempts
    requires s.db.events[earlier].conversation == s.db.events[e].conversation
    requires Before(earlier, s.db.events[earlier], e, s.db.events[e])
    ensures !s.db.events[earlier].Active()
    ensures After(s, step).db.events[e].attempts == s.db.events[e].attempts + 1
  {
    if step.EventCall? && step.event in s.db.events && EventRows.Accepts(s.db.events[step.event], step.eventCall) {
      EventRows.CallsAreFenced(s.db.events[step.event], step.eventCall, step.now);
    }
  }

  /** A terminal event never changes again, whatever calls still arrive for it. */
  lemma TerminalEventsAreFinal(states: seq<System>, steps: seq<Step>, i: nat, j: nat, e: EventId)
    requires IsRun(states, steps) && i <= j < |states|
    requires e in states[i].db.events && !states[i].db.events[e].Active()
    ensures e in states[j].db.events && states[j].db.events[e] == states[i].db.events[e]
  {
    if i < j {
      TerminalEventsAreFinal(states, steps, i, j - 1, e);
      var s, step := states[j - 1], steps[j - 1];
      assert states[j - 1 + 1] == After(s, step);
      if step.EventCall? && EventRows.Accepts(s.db.events[e], step.eventCall) {
        EventRows.CallsAreFenced(s.db.events[e], step.eventCall, step.now);
      }
      SomeStepsKeepEvents(s, step);
    }
  }

  /** A call fenced by another attempt than the current one changes nothing at all. */
  lemma StaleCallsChangeNothing(db: Db, id: EventId, call: EventRows.Call, now: Instant)
    requires id in db.events && EventRows.Fence(call).Some?
    requires db.events[id].attempts != EventRows.Fence(call).value || !db.events[id].status.Processing?
    ensures Tables.EventCall(db, id, call, now) == db
  {
    if EventRows.Accepts(db.events[id], call) {
      EventRows.CallsAreFenced(db.events[id], call, now);
    }
  }

  // ---------- messages and runs of one chat ----------

  ghost predicate ChatsApart(db: Db) {
    forall e, r :: e in db.events && r in db.runs && db.events[e].status.Processing? && db.runs[r].status.Processing?
                   ==> db.events[e].conversation != db.runs[r].target.chat
  }

  /** Assumption of one step: the run that `claimNext` starts still answers to the chat it
    * was selected for, or at least to one where no event is processing. */
  ghost predicate ChatStillFree(s: System, step: Step) {
    step.CommitRun? && s.lock.Some? && MayStart(s.db, s.lock.value.run, s.lock.value.task)
    ==> forall e :: e in ProcessingEvents(s.db)
                    ==> s.db.events[e].conversation != s.db.runs[s.lock.value.run].target.chat
  }

  /** Whoever is admitted, messages and runs stay apart exactly when the started run's
    * chat is still free at commit. */
  lemma StepKeepsChatsApart(s: System, step: Step)
    requires Enabled(s, step) && CapacityInv(s) && ChatsApart(s.db)
    ensures ChatsApart(After(s, step).db) <==> ChatStillFree(s, step)
  {
    var after := After(s, step).db;
    if step.ClaimReady? {
      forall e, r | e in after.events && r in after.runs && after.events[e].status.Processing?
                    && after.runs[r].status.Processing?
        ensures after.events[e].conversation != after.runs[r].target.chat
      {
        if e in step.batch { assert !RunsIn(s.db, s.db.events[e].conversation); }
      }
    } else if step.CommitRun? {
      if !ChatStillFree(s, step) {
        var e :| e in ProcessingEvents(s.db)
                 && s.db.events[e].conversation == s.db.runs[s.lock.value.run].target.chat;
        assert after.runs[s.lock.value.run].status.Processing?;
        assert !ChatsApart(after);
      }
    } else {
      QuietSteps(s, step);
    }
  }

  /** A selection that was not rebound to another chat is always free at commit. */
  lemma SelectedChatStaysFree(s: System, step: Step)
    requires CapacityInv(s)
    requires s.lock.Some? && s.lock.value.run in s.db.runs
    requires s.db.runs[s.lock.value.run].target.chat == s.lock.value.chat
    ensures ChatStillFree(s, step)
  {
  }

  ghost predicate NeverRebound(states: seq<System>, steps: seq<Step>)
    requires |states| == |steps| + 1
  {
    forall i {:trigger steps[i]} :: 0 <= i < |steps| && steps[i].CommitRun? && states[i].lock.Some?
      && states[i].lock.value.run in states[i].db.runs
      ==> states[i].db.runs[states[i].lock.value.run].target.chat == states[i].lock.value.chat
  }

  /** No chat ever has both a processing event and a processing run, in every run where no
    * selected run is rebound to another chat between the two halves of `claimNext`. */
  lemma ChatsApartAlways(states: seq<System>, steps: seq<Step>, i: nat)
    requires IsRun(states, steps) && NeverRebound(states, steps) && i < |states|
    ensures ChatsApart(states[i].db)
  {
    if i > 0 {
      ChatsApartAlways(states, steps, i - 1);
      CapacityAlways(states, steps, i - 1);
      var s, step := states[i - 1], steps[i - 1];
      assert states[i - 1 + 1] == After(s, step);
      if step.CommitRun? && s.lock.value.run in s.db.runs { SelectedChatStaysFree(s, step); }
      StepKeepsChatsApart(s, step);
    }
  }
}

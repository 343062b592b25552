/** The code of the scheduled worker on the run store: one claim, from `claimNext` to its
  * end. Its history is a run of the protocol of one scheduled run. */
module ScheduledWorker {
  import opened Records
  import opened Database
  import opened RunStore
  import Tables
  import Protocol
  import RunRows
  import SP = ScheduledRunProtocol

  const FAILURE_TEXT := "scheduled_run_failed"

  datatype AgentAnswer = Replies(text: string, completed: bool) | AgentFails

  /** `Refused` is the transport's definite rejection, `Unsure` any other error. */
  datatype SendAnswer = Arrives(message: string) | Refused | Unsure

  /** `beats` are the pauses between lease renewals while the agent runs; the others say how
    * the calls around the delivery come back. */
  datatype World = World(
    beats: seq<nat>,
    agent: AgentAnswer,
    prepare: SP.Ack,
    delivery: SendAnswer,
    mark: SP.Ack,
    close: SP.Ack,
    fallback: SP.Ack)

  class ScheduledRun {
    const store: RunStore
    const id: RunId
    ghost var states: seq<SP.System>
    ghost var steps: seq<SP.Step>

    ghost predicate Valid()
      reads this, store.db
    {
      && SP.IsRun(states, steps) && id in store.db.runs && Now().row == store.db.runs[id]
      && store.db.runs[id].task in store.db.tasks
    }

    ghost function Now(): SP.System
      requires states != []
      reads this
    {
      states[|states| - 1]
    }

    /** The run as `createDue` stores it. */
    constructor (store: RunStore, id: RunId, body: Revision, version: nat)
      requires id in store.db.runs && store.db.runs[id].task in store.db.tasks
      requires var run := store.db.runs[id];
               run == SP.Start(run.task, run.scheduledFor, body, version, run.createdAt).row
      ensures Valid() && this.store == store && this.id == id
    {
      this.store, this.id := store, id;
      var run := store.db.runs[id];
      states, steps := [SP.Start(run.task, run.scheduledFor, body, version, run.createdAt)], [];
    }

    ghost method Note(step: SP.Step)
      requires SP.IsRun(states, steps) && SP.Enabled(Now(), step)
      requires id in store.db.runs && SP.After(Now(), step).row == store.db.runs[id]
      requires store.db.runs[id].task in store.db.tasks
      modifies this
      ensures Valid() && Now() == SP.After(old(Now()), step)
      ensures states == old(states) + [Now()]
    {
      var _, _ := SP.Extend(states, steps, step);
      states, steps := states + [SP.After(Now(), step)], steps + [step];
    }
  }

  /** The only claim of the run has come to `pc`. */
  ghost predicate At(h: ScheduledRun, pc: SP.Pc)
    reads h, h.store.db
  {
    h.Valid() && |h.Now().workers| == 1 && h.Now().workers[0] == SP.Worker(1, pc)
  }

  ghost predicate Sends(a: SP.System, b: SP.System, results: seq<string>, fallbacks: nat) {
    b.results == a.results + results && b.fallbacks == a.fallbacks + fallbacks && b.now == a.now
  }

  /** The claim holds the run at `now`. */
  predicate Holds(row: Run, now: Instant) { row.OwnedBy(1) && row.leasedUntil.Some? && now <= row.leasedUntil.value }

  /** The claim still holds it at every renewal, and at the end when it takes the delivery. */
  predicate HoldsOn(row: Run, beats: seq<nat>, leaseMs: int, now: Instant)
    decreases |beats|
  {
    if beats == [] then Holds(row, now)
    else
      var later := now + beats[0];
      Holds(row, later) && HoldsOn(row.(leasedUntil := Some(later + leaseMs)), beats[1..], leaseMs, later)
  }

  method StartAgent(h: ScheduledRun)
    requires At(h, SP.Claimed)
    modifies h
    ensures At(h, SP.Running) && Sends(old(h.Now()), h.Now(), [], 0) && h.Now().row == old(h.Now().row)
  {
    h.Note(SP.RunAgent(0));
  }

  ghost method Wait(h: ScheduledRun, pause: nat)
    requires At(h, SP.Running)
    modifies h
    ensures At(h, SP.Running) && h.Now() == old(h.Now()).(now := old(h.Now()).now + pause)
  {
    h.Note(SP.Tick(pause));
  }

  /** One renewal by the heartbeat; a lost lease stops the claim. */
  method Beat(h: ScheduledRun, pause: nat, leaseMs: int, now: Instant) returns (kept: bool, later: Instant)
    requires At(h, SP.Running) && h.Now().now == now
    modifies h, h.store.db
    ensures At(h, if kept then SP.Running else SP.Ended) && h.Now().now == later
    ensures h.Now().results == old(h.Now().results) && h.Now().fallbacks == old(h.Now().fallbacks)
    ensures later == now + pause && kept == Holds(old(h.Now().row), later)
    ensures h.Now().row == if kept then old(h.Now().row).(leasedUntil := Some(later + leaseMs)) else old(h.Now().row)
  {
    later := now + pause;
    Wait(h, pause);
    kept := Renew(h, leaseMs, later);
    if !kept { StopClaim(h); }
  }

  method Renew(h: ScheduledRun, leaseMs: int, now: Instant) returns (kept: bool)
    requires At(h, SP.Running) && h.Now().now == now
    modifies h, h.store.db
    ensures At(h, SP.Running) && Sends(old(h.Now()), h.Now(), [], 0)
    ensures kept == Holds(old(h.Now().row), now)
    ensures h.Now().row == if kept then old(h.Now().row).(leasedUntil := Some(now + leaseMs)) else old(h.Now().row)
  {
    kept := h.store.ExtendLease(h.id, 1, leaseMs, now);
    h.Note(SP.Heartbeat(0, leaseMs, now));
  }

  ghost method StopClaim(h: ScheduledRun)
    requires At(h, SP.Running)
    modifies h
    ensures At(h, SP.Ended) && Sends(old(h.Now()), h.Now(), [], 0) && h.Now().row == old(h.Now().row)
  {
    h.Note(SP.Stop(0));
  }

  method Compose(h: ScheduledRun, text: string, completed: bool)
    requires At(h, SP.Running)
    modifies h
    ensures At(h, SP.Composed(text, completed)) && Sends(old(h.Now()), h.Now(), [], 0) && h.Now().row == old(h.Now().row)
  {
    h.Note(SP.AgentEnds(0, text, completed));
  }

  method TakeDelivery(h: ScheduledRun, text: string, completed: bool, leaseMs: int, now: Instant) returns (owned: bool)
    requires At(h, SP.Composed(text, completed)) && h.Now().now == now
    modifies h, h.store.db
    ensures At(h, if owned then SP.Owned(text, completed) else SP.Ended) && Sends(old(h.Now()), h.Now(), [], 0)
    ensures owned == Holds(old(h.Now().row), now) && (owned ==> h.Now().row.OwnedBy(1))
    ensures !owned ==> h.Now().row == old(h.Now().row)
  {
    owned := h.store.ExtendLease(h.id, 1, Max(leaseMs, SP.DELIVERY_LEASE), now);
    h.Note(SP.TakeDelivery(0, leaseMs, now));
  }

  /** The claim owns a run that neither this claim nor an earlier one delivered or gave up. */
  ghost predicate Fresh(h: ScheduledRun)
    requires h.states != []
    reads h
  {
    h.Now().row.OwnedBy(1) && h.Now().row.deliveryMessage.None? && h.Now().row.fallbackAt.None?
  }

  /** What a store call does to the row of its run. */
  lemma CallOnRow(was: Tables.Db, after: Tables.Db, id: RunId, call: RunRows.Call, now: Instant)
    requires Takes(was, Protocol.RunCall(id, call, now), after) && id in was.runs
    ensures id in after.runs && after.tasks == was.tasks
    ensures after.runs[id] == if RunRows.Accepts(was.runs[id], call, now) then RunRows.Apply(was.runs[id], call, now) else was.runs[id]
  {
  }

  lemma Preparing(s: SP.System, text: string, completed: bool, ack: SP.Ack, row: Run)
    requires s.workers == [SP.Worker(1, SP.Owned(text, completed))]
    requires var call := RunRows.PrepareDelivery(1, text);
             row == if ack.Commits() && RunRows.Accepts(s.row, call, s.now) then RunRows.Apply(s.row, call, s.now) else s.row
    ensures var step := SP.Prepare(0, ack, s.now);
            && SP.Enabled(s, step)
            && var prepared := ack.Answered? && s.row.OwnedBy(1) && s.row.deliveryAt.None?;
               SP.After(s, step) == s.(row := row,
               workers := [SP.Worker(1, if prepared then SP.Prepared(text, completed) else SP.Falling(false))],
               preparedAfterRecovery := SP.After(s, step).preparedAfterRecovery)
  {
  }

  method PrepareDelivery(h: ScheduledRun, text: string, completed: bool, ack: SP.Ack, now: Instant) returns (prepared: bool)
    requires At(h, SP.Owned(text, completed)) && h.Now().now == now
    modifies h, h.store.db
    ensures At(h, if prepared then SP.Prepared(text, completed) else SP.Falling(false)) && Sends(old(h.Now()), h.Now(), [], 0)
    ensures prepared ==> h.Now().row.preparedText == Some(text) && h.Now().row.deliveryAt == Some(now) && Fresh(h)
    ensures prepared <==> ack.Answered? && old(h.Now().row.OwnedBy(1))
    ensures h.Now().row.deliveryMessage.None?
    ensures h.Now().row.status == old(h.Now().row.status) && (h.Now().row.OwnedBy(1) <==> old(h.Now().row.OwnedBy(1)))
  {
    Undelivered(h);
    ghost var was, s := h.store.db.Contents(), h.Now();
    prepared := false;
    if ack.Commits() {
      prepared := h.store.PrepareDelivery(h.id, 1, text, now);
      CallOnRow(was, h.store.db.Contents(), h.id, RunRows.PrepareDelivery(1, text), now);
    }
    prepared := prepared && ack.Answered?;
    Preparing(s, text, completed, ack, h.store.db.runs[h.id]);
    h.Note(SP.Prepare(0, ack, now));
  }

  /** What the history says of a run whose claim has not delivered yet. */
  lemma Undelivered(h: ScheduledRun)
    requires h.Valid() && |h.Now().workers| == 1 && SP.BeforeResult(h.Now().workers[0].pc)
    ensures h.Now().row.deliveryMessage.None? && h.Now().row.fallbackAt.None? && h.Now().fallbacks == 0
    ensures !h.Now().workers[0].pc.Prepared? ==> h.Now().row.deliveryAt.None?
  {
    SP.DeliveryAlways(h.states, h.steps, |h.states| - 1);
  }

  /** Sends the prepared result and records its message identifier. */
  method SendResult(h: ScheduledRun, text: string, completed: bool, answer: SendAnswer, ack: SP.Ack, now: Instant) returns (marked: bool)
    requires At(h, SP.Prepared(text, completed)) && h.Now().now == now && Fresh(h) && h.Now().row.deliveryAt.Some?
    modifies h, h.store.db
    ensures At(h, if marked then SP.Closing(completed) else SP.Falling(answer.Refused?))
    ensures Sends(old(h.Now()), h.Now(), [text], 0) && (marked <==> answer.Arrives? && ack.Answered?)
    ensures h.Now().row.OwnedBy(1) && h.Now().row.fallbackAt.None?
    ensures h.Now().row.deliveryMessage == if answer.Arrives? && ack.Commits() then Some(answer.message) else None
    ensures h.Now().row.preparedText == old(h.Now().row.preparedText)
  {
    h.Note(SP.SendResult(0));
    marked := false;
    match answer
    case Arrives(message) => marked := MarkDelivered(h, completed, message, ack, now);
    case Refused => h.Note(SP.ResultFails(0, true));
    case Unsure => h.Note(SP.ResultFails(0, false));
  }

  method MarkDelivered(h: ScheduledRun, completed: bool, message: string, ack: SP.Ack, now: Instant) returns (marked: bool)
    requires At(h, SP.ResultSent(completed)) && h.Now().now == now && Fresh(h) && h.Now().row.deliveryAt.Some?
    modifies h, h.store.db
    ensures At(h, if marked then SP.Closing(completed) else SP.Falling(false)) && Sends(old(h.Now()), h.Now(), [], 0)
    ensures marked <==> ack.Answered?
    ensures h.Now().row.OwnedBy(1) && h.Now().row.fallbackAt.None?
    ensures h.Now().row.deliveryMessage == if ack.Commits() then Some(message) else None
    ensures h.Now().row.preparedText == old(h.Now().row.preparedText)
  {
    if ack.Commits() { var _ := h.store.MarkDelivered(h.id, 1, message, now); }
    marked := ack.Answered?;
    h.Note(SP.ResultArrives(0, message, ack));
  }

  /** `finish` with the agent's outcome; when it throws the fallback follows. */
  method Close(h: ScheduledRun, completed: bool, ack: SP.Ack, now: Instant) returns (closed: bool)
    requires At(h, SP.Closing(completed)) && h.Now().now == now && h.Now().row.OwnedBy(1)
    modifies h, h.store.db
    ensures At(h, if closed then SP.Ended else SP.Falling(false)) && Sends(old(h.Now()), h.Now(), [], 0)
    ensures closed <==> ack.Answered?
    ensures h.Now().row.deliveryMessage == old(h.Now().row.deliveryMessage)
    ensures h.Now().row.fallbackAt == old(h.Now().row.fallbackAt)
    ensures h.Now().row.status == if !ack.Commits() then RunStatus.Processing
                                  else if completed then RunStatus.Completed else RunStatus.Failed
    ensures h.Now().row.OwnedBy(1) <==> !ack.Commits()
  {
    if ack.Commits() {
      var outcome := if completed then RunStatus.Completed else RunStatus.Failed;
      var category := if completed then None else Some("scheduled_run_failed");
      var _ := h.store.Finish(h.id, 1, outcome, category);
    }
    closed := ack.Answered?;
    h.Note(SP.Close(0, ack));
  }

  /** The fallback notice, if none was begun before, and the end of the run. */
  method FallBack(h: ScheduledRun, rejected: bool, ack: SP.Ack, now: Instant)
    requires At(h, SP.Falling(rejected)) && h.Now().now == now
    modifies h, h.store.db
    ensures At(h, SP.Ended) && h.Now().results == old(h.Now().results)
    ensures h.Now().row.deliveryMessage == old(h.Now().row.deliveryMessage)
    ensures h.Now().fallbacks == old(h.Now().fallbacks)
            + if ack.Answered? && old(h.Now().row.OwnedBy(1) && h.Now().row.fallbackAt.None?) then 1 else 0
    ensures old(h.Now().row.OwnedBy(1)) ==>
              h.Now().row.status == if rejected then RunStatus.Failed else RunStatus.DeliveryUncertain
    ensures !old(h.Now().row.OwnedBy(1)) ==> h.Now().row == old(h.Now().row)
  {
    var begun := BeginFallback(h, rejected, ack, now);
    if begun { SendFallback(h, rejected); }
    EndUndelivered(h, rejected);
  }

  lemma BeginningFallback(s: SP.System, rejected: bool, ack: SP.Ack, row: Run)
    requires s.workers == [SP.Worker(1, SP.Falling(rejected))]
    requires var call := RunRows.BeginFallback(1);
             row == if ack.Commits() && RunRows.Accepts(s.row, call, s.now) then RunRows.Apply(s.row, call, s.now) else s.row
    ensures var step := SP.BeginFallback(0, ack, s.now);
            && SP.Enabled(s, step)
            && var begun := ack.Answered? && s.row.OwnedBy(1) && s.row.fallbackAt.None?;
               SP.After(s, step) == s.(row := row,
               workers := [SP.Worker(1, if begun then SP.FallbackReady(rejected) else SP.Finishing(rejected))])
  {
  }

  method BeginFallback(h: ScheduledRun, rejected: bool, ack: SP.Ack, now: Instant) returns (begun: bool)
    requires At(h, SP.Falling(rejected)) && h.Now().now == now
    modifies h, h.store.db
    ensures At(h, if begun then SP.FallbackReady(rejected) else SP.Finishing(rejected))
    ensures Sends(old(h.Now()), h.Now(), [], 0)
    ensures begun <==> ack.Answered? && old(h.Now().row.OwnedBy(1) && h.Now().row.fallbackAt.None?)
    ensures h.Now().row == old(h.Now().row).(fallbackAt := h.Now().row.fallbackAt)
    ensures !old(h.Now().row.OwnedBy(1)) ==> h.Now().row == old(h.Now().row)
  {
    ghost var was, s := h.store.db.Contents(), h.Now();
    begun := false;
    if ack.Commits() {
      begun := h.store.BeginFallback(h.id, 1, now);
      CallOnRow(was, h.store.db.Contents(), h.id, RunRows.BeginFallback(1), now);
    }
    begun := begun && ack.Answered?;
    BeginningFallback(s, rejected, ack, h.store.db.runs[h.id]);
    h.Note(SP.BeginFallback(0, ack, now));
  }

  method SendFallback(h: ScheduledRun, rejected: bool)
    requires At(h, SP.FallbackReady(rejected))
    modifies h
    ensures At(h, SP.Finishing(rejected)) && Sends(old(h.Now()), h.Now(), [], 1)
    ensures h.Now().row == old(h.Now().row)
  {
    h.Note(SP.SendFallback(0));
    h.Note(SP.FallbackEnds(0));
  }

  method EndUndelivered(h: ScheduledRun, rejected: bool)
    requires At(h, SP.Finishing(rejected))
    modifies h, h.store.db
    ensures At(h, SP.Ended) && Sends(old(h.Now()), h.Now(), [], 0)
    ensures h.Now().row.deliveryMessage == old(h.Now().row.deliveryMessage)
    ensures old(h.Now().row.OwnedBy(1)) ==>
              h.Now().row.status == if rejected then RunStatus.Failed else RunStatus.DeliveryUncertain
    ensures !old(h.Now().row.OwnedBy(1)) ==> h.Now().row == old(h.Now().row)
  {
    var outcome := if rejected then RunStatus.Failed else RunStatus.DeliveryUncertain;
    var category := if rejected then "scheduled_delivery_rejected" else "delivery_uncertain";
    var _ := h.store.Finish(h.id, 1, outcome, Some(category));
    h.Note(SP.Finish(0));
  }

  method RunAgent(h: ScheduledRun, beats: seq<nat>, leaseMs: int, now: Instant) returns (kept: bool, later: Instant)
    requires At(h, SP.Claimed) && h.Now().now == now
    modifies h, h.store.db
    ensures At(h, if kept then SP.Running else SP.Ended) && h.Now().now == later
    ensures h.Now().results == old(h.Now().results) && h.Now().fallbacks == old(h.Now().fallbacks)
    ensures HoldsOn(old(h.Now().row), beats, leaseMs, now) <==> kept && Holds(h.Now().row, later)
  {
    StartAgent(h);
    kept, later := true, now;
    assert beats[0..] == beats;
    for i := 0 to |beats|
      invariant At(h, SP.Running) && h.Now().now == later && kept
      invariant h.Now().results == old(h.Now().results) && h.Now().fallbacks == old(h.Now().fallbacks)
      invariant HoldsOn(old(h.Now().row), beats, leaseMs, now) == HoldsOn(h.Now().row, beats[i..], leaseMs, later)
    {
      assert beats[i..][0] == beats[i] && beats[i..][1..] == beats[i + 1..];
      kept, later := Beat(h, beats[i], leaseMs, later);
      if !kept { return; }
    }
  }

  /** How a run ends that its claim owned when it took the delivery. */
  function EndStatus(world: World, completed: bool): RunStatus {
    if !world.prepare.Answered? then RunStatus.DeliveryUncertain
    else
      match world.delivery
      case Refused => RunStatus.Failed
      case Unsure => RunStatus.DeliveryUncertain
      case Arrives(_) =>
        if !world.mark.Answered? || world.close == SP.Lost(false) then RunStatus.DeliveryUncertain
        else if completed then RunStatus.Completed
        else RunStatus.Failed
  }

  /** From the prepared text to the end of the claim: what was sent, and whether a delivered
    * run still got a fallback, follow from how the calls came back, in both directions. */
  method Deliver(h: ScheduledRun, text: string, completed: bool, world: World, now: Instant) returns (closed: bool)
    requires At(h, SP.Owned(text, completed)) && h.Now().now == now && h.Now().fallbacks == 0
    requires h.Now().row.OwnedBy(1)
    modifies h, h.store.db
    ensures At(h, SP.Ended) && h.Now().fallbacks <= 1
    ensures h.Now().results == old(h.Now().results) + if world.prepare.Answered? then [text] else []
    ensures h.Now().row.status == EndStatus(world, completed)
    ensures h.Now().row.deliveryMessage.Some? ==> world.delivery.Arrives? && h.Now().row.deliveryMessage.value == world.delivery.message
    ensures closed <==>
              |h.Now().results| > |old(h.Now().results)| && world.delivery.Arrives? && world.mark.Answered? && world.close.Answered?
    ensures closed ==>
              h.Now().fallbacks == 0 && h.Now().row.status == if completed then RunStatus.Completed else RunStatus.Failed
    ensures h.Now().row.deliveryMessage.Some? && h.Now().fallbacks == 1 <==>
              && |h.Now().results| > |old(h.Now().results)| && world.delivery.Arrives? && world.fallback.Answered?
              && (world.mark == SP.Lost(true) || (world.mark.Answered? && world.close == SP.Lost(false)))
  {
    closed := false;
    var rejected := false;
    var prepared := PrepareDelivery(h, text, completed, world.prepare, now);
    if prepared {
      var marked := SendResult(h, text, completed, world.delivery, world.mark, now);
      rejected := world.delivery.Refused?;
      if marked { closed := Close(h, completed, world.close, now); }
    }
    if !closed { FallBack(h, rejected, world.fallback, now); }
  }

  /** `processOne` after the claim. The claim is over afterwards, its history is a run of the
    * protocol, it sent at most one result and one fallback. It reports a delivery exactly when
    * all calls after the send came back well, and a delivered run gets a fallback exactly when
    * the answer of `markDelivered` or the closing `finish` was lost. */
  method Process(h: ScheduledRun, leaseMs: int, world: World, now: Instant) returns (delivered: bool)
    requires At(h, SP.Claimed) && h.Now().now == now
    modifies h, h.store.db
    ensures At(h, SP.Ended)
    ensures h.Now().fallbacks <= 1
    // what is sent is what the agent said, or the notice that it failed
    ensures h.Now().results == old(h.Now().results)
            || h.Now().results == old(h.Now().results) + [if world.agent.Replies? then world.agent.text else FAILURE_TEXT]
    // and it is sent exactly if the claim holds the run until then, and the delivery is prepared
    ensures |h.Now().results| > |old(h.Now().results)| <==>
              HoldsOn(old(h.Now().row), world.beats, leaseMs, now) && world.prepare.Answered?
    ensures |h.Now().results| > |old(h.Now().results)| ==>
              && world.prepare.Answered?
              && h.Now().row.status == EndStatus(world, world.agent.Replies? && world.agent.completed)
    ensures |h.Now().results| > |old(h.Now().results)| && h.Now().row.deliveryMessage.Some? ==>
              world.delivery.Arrives? && h.Now().row.deliveryMessage.value == world.delivery.message
    ensures delivered <==>
              |h.Now().results| > |old(h.Now().results)| && world.delivery.Arrives? && world.mark.Answered? && world.close.Answered?
    ensures delivered ==>
              && h.Now().fallbacks == 0
              && h.Now().row.status == if world.agent.Replies? && world.agent.completed then RunStatus.Completed else RunStatus.Failed
    ensures h.Now().row.deliveryMessage.Some? && h.Now().fallbacks == 1 <==>
              && |h.Now().results| > |old(h.Now().results)| && world.delivery.Arrives? && world.fallback.Answered?
              && (world.mark == SP.Lost(true) || (world.mark.Answered? && world.close == SP.Lost(false)))
  {
    Undelivered(h);
    var kept, later := RunAgent(h, world.beats, leaseMs, now);
    if !kept { return false; }
    var text, completed := FAILURE_TEXT, false;
    if world.agent.Replies? { text, completed := world.agent.text, world.agent.completed; }
    Compose(h, text, completed);
    var owned := TakeDelivery(h, text, completed, leaseMs, later);
    if !owned { return false; }
    delivered := Deliver(h, text, completed, world, later);
  }

  ghost predicate OnlyFirst(db: Tables.Db, id: RunId, now: Instant) {
    First(db, id, now) && forall r :: First(db, r, now) ==> r == id
  }

  /** `processOne`: claims the next run and, when that is this run, processes it. A run that
    * was claimed before is never claimed again. */
  method ProcessOne(h: ScheduledRun, leaseMs: int, world: World, now: Instant) returns (claimed: bool)
    requires h.Valid() && h.Now().now == now
    modifies h, h.store.db
    ensures h.Valid()
    ensures claimed ==> At(h, SP.Ended) && old(h.Now().workers) == [] && |h.Now().results| <= 1 && h.Now().fallbacks <= 1
    ensures !claimed ==> h.states == old(h.states)
    // it is claimed if it is the first that could start, and its task is live
    ensures OnlyFirst(old(h.store.db.Contents()), h.id, now) && LiveTask(old(h.store.db.Contents()), old(h.Now().row.task)) ==> claimed
  {
    SP.OnceAlways(h.states, h.steps, |h.states| - 1);
    var next := h.store.ClaimNext(leaseMs, now);
    claimed := next == Some(h.id);
    if claimed {
      h.Note(SP.Claim(leaseMs));
      SP.OnceAlways(h.states, h.steps, |h.states| - 1);
      var _ := Process(h, leaseMs, world, now);
    }
  }
}

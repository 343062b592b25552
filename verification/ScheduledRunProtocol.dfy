/** One scheduled run: its row, the workers that claimed it, and what they sent. */
module ScheduledRunProtocol {
  import opened Records
  import RunRows

  const DELIVERY_LEASE := 900_000

  /** Where a worker is in `processOne`. */
  datatype Pc =
    | Claimed
    | Running
    | Composed(text: string, completed: bool)
    | Owned(text: string, completed: bool)
    | Prepared(text: string, completed: bool)
    | ResultSent(completed: bool)
    | Closing(completed: bool)
    | Falling(rejected: bool)
    | FallbackReady(rejected: bool)
    | FallbackSent(rejected: bool)
    | Finishing(rejected: bool)
    | Ended

  datatype Worker = Worker(attempt: nat, pc: Pc)

  datatype System = System(
    now: Instant,
    row: Run,
    workers: seq<Worker>,
    // what has happened so far
    agentRuns: nat,
    results: seq<string>,
    fallbacks: nat,
    recovered: bool,
    preparedAfterRecovery: bool)

  function Start(task: TaskId, scheduledFor: Instant, body: Revision, version: nat, now: Instant): System {
    System(now, Run(task, scheduledFor, now, version, body.instruction, body.target, body.context,
    RunStatus.Queued, 0, None, None, None, None, None, None, None), [], 0, [], 0, false, false)
  }

  /** How a store call comes back: with its answer, or with an error although it may have
    * committed. A call that is refused comes back as an error as well. */
  datatype Ack = Answered | Lost(committed: bool)
  {
    predicate Commits() { Answered? || committed }
  }

  /** `startedAt` is when the database read its clock for a statement, `clock` the instant that
    * recovery came with; the step is the commit, which may come later. */
  datatype Step =
    | Tick(ms: nat)
    | Claim(leaseMs: int)
    | Cancel
    | Rebind(version: nat, body: Revision)
    | Recover(clock: Instant)
    | RunAgent(w: nat)
    | TaskMissing(w: nat)
    | AgentEnds(w: nat, text: string, completed: bool)
    | BeginWrite(w: nat, startedAt: Instant)
    | Heartbeat(w: nat, leaseMs: int, startedAt: Instant)
    | TakeDelivery(w: nat, leaseMs: int, startedAt: Instant)
    | Prepare(w: nat, ack: Ack, startedAt: Instant)
    | SendResult(w: nat)
    | ResultArrives(w: nat, message: string, ack: Ack)
    | ResultFails(w: nat, rejected: bool)
    | Close(w: nat, ack: Ack)
    | BeginFallback(w: nat, ack: Ack, startedAt: Instant)
    | SendFallback(w: nat)
    | FallbackEnds(w: nat)
    | Finish(w: nat)
    | Stop(w: nat)
  {
    predicate OfWorker() { !Tick? && !Claim? && !Cancel? && !Rebind? && !Recover? }
  }

  predicate Enabled(s: System, step: Step) {
    match step
    case Tick(_) => true
    case Claim(_) => s.row.status.Queued?
    case Cancel => s.row.status.Queued?
    case Rebind(_, _) => s.row.status.Cancelled?
    case Recover(clock) => RunRows.Expired(s.row, clock) && clock <= s.now
    case _ => step.w < |s.workers| && Ready(s.workers[step.w].pc, step) && StartOf(s, step) <= s.now
  }

  function StartOf(s: System, step: Step): Instant {
    match step
    case BeginWrite(_, startedAt) => startedAt
    case Heartbeat(_, _, startedAt) => startedAt
    case TakeDelivery(_, _, startedAt) => startedAt
    case Prepare(_, _, startedAt) => startedAt
    case BeginFallback(_, _, startedAt) => startedAt
    case _ => s.now
  }

  /** Where the worker has to be for the step. Lease renewals and late writes come anywhere. */
  predicate Ready(pc: Pc, step: Step) {
    match step
    case RunAgent(_) => pc.Claimed?
    case TaskMissing(_) => pc.Claimed?
    case AgentEnds(_, _, _) => pc.Running?
    case TakeDelivery(_, _, _) => pc.Composed?
    case Prepare(_, _, _) => pc.Owned?
    case SendResult(_) => pc.Prepared?
    case ResultArrives(_, _, _) => pc.ResultSent?
    case ResultFails(_, _) => pc.ResultSent?
    case Close(_, _) => pc.Closing?
    case BeginFallback(_, _, _) => pc.Falling?
    case SendFallback(_) => pc.FallbackReady?
    case FallbackEnds(_) => pc.FallbackSent?
    case Finish(_) => pc.Finishing?
    case _ => true
  }

  /** The guarded call that a step of a worker with fencing number `a` makes. */
  function CallOf(a: nat, pc: Pc, step: Step): Option<RunRows.Call>
    requires Ready(pc, step)
  {
    match step
    case BeginWrite(_, _) => Some(RunRows.MarkWrite(a))
    case Heartbeat(_, leaseMs, _) => Some(RunRows.ExtendLease(a, leaseMs))
    case TakeDelivery(_, leaseMs, _) => Some(RunRows.ExtendLease(a, Max(leaseMs, DELIVERY_LEASE)))
    case Prepare(_, _, _) => Some(RunRows.PrepareDelivery(a, pc.text))
    case ResultArrives(_, message, _) => Some(RunRows.MarkDelivered(a, message))
    case BeginFallback(_, _, _) => Some(RunRows.BeginFallback(a))
    case _ => None
  }

  /** Outcome and category that a step of the worker gives the run in `finish`. */
  function EndOf(pc: Pc, step: Step): Option<(RunStatus, Option<string>)>
    requires Ready(pc, step)
  {
    match step
    case TaskMissing(_) => Some((RunStatus.Failed, Some("scheduled_task_missing")))
    case Close(_, _) =>
      Some(if pc.completed then (RunStatus.Completed, None) else (RunStatus.Failed, Some("scheduled_run_failed")))
    case Finish(_) =>
      Some(if pc.rejected then (RunStatus.Failed, Some("scheduled_delivery_rejected"))
      else (RunStatus.DeliveryUncertain, Some("delivery_uncertain")))
    case _ => None
  }

  function AckOf(step: Step): Ack {
    match step
    case Prepare(_, ack, _) => ack
    case ResultArrives(_, _, ack) => ack
    case Close(_, ack) => ack
    case BeginFallback(_, ack, _) => ack
    case _ => Answered
  }

  /** Whether the row takes the step's call. */
  predicate Taken(row: Run, now: Instant, a: nat, pc: Pc, step: Step)
    requires Ready(pc, step)
  {
    && (CallOf(a, pc, step).Some? ==> RunRows.Accepts(row, CallOf(a, pc, step).value, now))
    && (EndOf(pc, step).Some? ==> row.OwnedBy(a))
  }

  function RowAfter(row: Run, now: Instant, a: nat, pc: Pc, step: Step): Run
    requires Ready(pc, step)
  {
    if !AckOf(step).Commits() || !Taken(row, now, a, pc, step) then row
    else if CallOf(a, pc, step).Some? then RunRows.Apply(row, CallOf(a, pc, step).value, now)
    else if EndOf(pc, step).Some? then RunRows.Finish(row, EndOf(pc, step).value.0, EndOf(pc, step).value.1)
    else row
  }

  /** Where the step leaves the worker; `good` says that the call was taken and answered. */
  function PcAfter(pc: Pc, step: Step, good: bool): Pc
    requires Ready(pc, step)
  {
    match step
    case RunAgent(_) => Running
    case AgentEnds(_, text, completed) => Composed(text, completed)
    case BeginWrite(_, _) => pc
    case Heartbeat(_, _, _) => pc
    case TakeDelivery(_, _, _) => if good then Owned(pc.text, pc.completed) else Ended
    case Prepare(_, _, _) => if good then Prepared(pc.text, pc.completed) else Falling(false)
    case SendResult(_) => ResultSent(pc.completed)
    case ResultArrives(_, _, _) => if good then Closing(pc.completed) else Falling(false)
    case ResultFails(_, rejected) => Falling(rejected)
    case Close(_, _) => if good then Ended else Falling(false)
    case BeginFallback(_, _, _) => if good then FallbackReady(pc.rejected) else Finishing(pc.rejected)
    case SendFallback(_) => FallbackSent(pc.rejected)
    case FallbackEnds(_) => Finishing(pc.rejected)
    case _ => Ended
  }

  function WorkerStep(s: System, step: Step): System
    requires Enabled(s, step) && step.OfWorker()
  {
    var w := s.workers[step.w];
    var taken := Taken(s.row, StartOf(s, step), w.attempt, w.pc, step);
    s.(row := RowAfter(s.row, StartOf(s, step), w.attempt, w.pc, step),
    workers := s.workers[step.w := w.(pc := PcAfter(w.pc, step, taken && AckOf(step).Answered?))],
    agentRuns := s.agentRuns + if step.RunAgent? then 1 else 0,
    results := s.results + if step.SendResult? then [w.pc.text] else [],
    fallbacks := s.fallbacks + if step.SendFallback? then 1 else 0,
    preparedAfterRecovery := s.preparedAfterRecovery
    || (step.Prepare? && taken && step.ack.Commits() && s.recovered))
  }

  function After(s: System, step: Step): System
    requires Enabled(s, step)
  {
    match step
    case Tick(ms) => s.(now := s.now + ms)
    case Claim(leaseMs) =>
      var row := RunRows.Claim(s.row, s.now + leaseMs);
      s.(row := row, workers := s.workers + [Worker(row.claimAttempt, Claimed)])
    case Cancel => s.(row := RunRows.Cancel(s.row))
    case Rebind(version, body) =>
      s.(row := RunRows.Rebind(s.row, version, body.instruction, body.target, body.context))
    case Recover(_) => s.(row := RunRows.Expire(s.row), recovered := true)
    case _ => WorkerStep(s, step)
  }

  ghost predicate IsRun(states: seq<System>, steps: seq<Step>) {
    && |states| == |steps| + 1
    && (exists task, at, body, version, now :: states[0] == Start(task, at, body, version, now))
    && forall i {:trigger steps[i]} :: 0 <= i < |steps| ==>
         Enabled(states[i], steps[i]) && states[i + 1] == After(states[i], steps[i])
  }

  // ---------- at most once ----------

  predicate BeforeAgent(pc: Pc) { pc.Claimed? }

  predicate BeforeResult(pc: Pc) { pc.Claimed? || pc.Running? || pc.Composed? || pc.Owned? || pc.Prepared? }

  predicate BeforeFallback(pc: Pc) {
    BeforeResult(pc) || pc.ResultSent? || pc.Closing? || pc.Falling? || pc.FallbackReady?
  }

  /** The row is claimed exactly when a worker exists, and there is never a second worker. */
  ghost predicate ClaimInv(s: System) {
    && |s.workers| <= 1
    && (|s.workers| == 1 <==> !s.row.status.Queued? && !s.row.status.Cancelled?)
    && s.row.claimAttempt == |s.workers|
    && (|s.workers| == 1 ==> s.workers[0].attempt == 1)
    && (s.recovered ==> s.row.status.Failed?)
    && !s.preparedAfterRecovery
  }

  predicate CountsFit(pc: Pc, agentRuns: nat, results: nat, fallbacks: nat) {
    && agentRuns <= 1 && (BeforeAgent(pc) ==> agentRuns == 0)
    && results <= 1 && (BeforeResult(pc) ==> results == 0) && (pc.ResultSent? || pc.Closing? ==> results == 1)
    && fallbacks <= 1 && (BeforeFallback(pc) ==> fallbacks == 0)
  }

  ghost predicate CountInv(s: System) {
    if |s.workers| == 1 then CountsFit(s.workers[0].pc, s.agentRuns, |s.results|, s.fallbacks)
    else s.agentRuns == |s.results| == s.fallbacks == 0
  }

  ghost predicate OnceInv(s: System) { ClaimInv(s) && CountInv(s) }

  /** A worker's call never queues or cancels the row, and only touches a row it owns. */
  lemma WorkersKeepClaim(row: Run, now: Instant, a: nat, pc: Pc, step: Step)
    requires Ready(pc, step) && step.OfWorker()
    ensures var after := RowAfter(row, now, a, pc, step);
            && after.claimAttempt == row.claimAttempt
            && (after != row ==> row.OwnedBy(a) && !after.status.Queued? && !after.status.Cancelled?)
  {
  }

  lemma StepKeepsClaim(s: System, step: Step)
    requires Enabled(s, step) && ClaimInv(s)
    ensures ClaimInv(After(s, step))
    ensures |After(s, step).workers| == if step.Claim? then 1 else |s.workers|
  {
    if step.OfWorker() {
      WorkersKeepClaim(s.row, StartOf(s, step), s.workers[step.w].attempt, s.workers[step.w].pc, step);
    }
  }

  /** A worker's counters move with its place in `processOne`. */
  lemma CountsMove(pc: Pc, step: Step, good: bool, agentRuns: nat, results: nat, fallbacks: nat)
    requires Ready(pc, step) && step.OfWorker() && CountsFit(pc, agentRuns, results, fallbacks)
    ensures CountsFit(PcAfter(pc, step, good), agentRuns + if step.RunAgent? then 1 else 0,
                      results + if step.SendResult? then 1 else 0, fallbacks + if step.SendFallback? then 1 else 0)
  {
  }

  lemma StepKeepsCounts(s: System, step: Step)
    requires Enabled(s, step) && OnceInv(s)
    ensures CountInv(After(s, step))
  {
    StepKeepsClaim(s, step);
    if step.OfWorker() {
      var w := s.workers[step.w];
      var good := Taken(s.row, StartOf(s, step), w.attempt, w.pc, step) && AckOf(step).Answered?;
      CountsMove(w.pc, step, good, s.agentRuns, |s.results|, s.fallbacks);
    }
  }

  lemma StepKeepsOnce(s: System, step: Step)
    requires Enabled(s, step) && OnceInv(s)
    ensures OnceInv(After(s, step))
  {
    StepKeepsClaim(s, step);
    StepKeepsCounts(s, step);
  }

  /** Over any run of the protocol a scheduled run is claimed at most once, reaches the
    * agent at most once, sends its result and its fallback at most once each, and no
    * delivery is prepared after lease recovery has failed it. */
  lemma EverythingOnce(states: seq<System>, steps: seq<Step>, i: nat)
    requires IsRun(states, steps) && i < |states|
    ensures |states[i].workers| <= 1
    ensures states[i].row.claimAttempt ==
            if states[i].row.status.Queued? || states[i].row.status.Cancelled? then 0 else 1
    ensures states[i].agentRuns <= 1 && |states[i].results| <= 1 && states[i].fallbacks <= 1
    ensures !states[i].preparedAfterRecovery
  {
    OnceAlways(states, steps, i);
  }

  lemma OnceAlways(states: seq<System>, steps: seq<Step>, i: nat)
    requires IsRun(states, steps) && i < |states|
    ensures OnceInv(states[i])
  {
    if i > 0 {
      OnceAlways(states, steps, i - 1);
      assert states[i - 1 + 1] == After(states[i - 1], steps[i - 1]);
      StepKeepsOnce(states[i - 1], steps[i - 1]);
    }
  }

  lemma Extend(states: seq<System>, steps: seq<Step>, step: Step) returns (longer: seq<System>, taken: seq<Step>)
    requires IsRun(states, steps) && Enabled(states[|steps|], step)
    ensures IsRun(longer, taken) && taken == steps + [step]
    ensures longer == states + [After(states[|steps|], step)]
  {
    longer, taken := states + [After(states[|steps|], step)], steps + [step];
    forall i | 0 <= i < |taken|
      ensures Enabled(longer[i], taken[i]) && longer[i + 1] == After(longer[i], taken[i])
    {
      if i < |steps| { assert taken[i] == steps[i]; }
    }
  }

  // ---------- a fallback after a delivery ----------

  /** What the row says about delivery and fallback at each place of the worker. */
  predicate DeliveryFits(row: Run, pc: Pc, fallbacks: nat) {
    && (BeforeResult(pc) || pc.ResultSent? ==> row.deliveryMessage.None?)
    && (pc.Prepared? || pc.ResultSent? ==> row.deliveryAt.Some?)
    && (BeforeResult(pc) && !pc.Prepared? ==> row.deliveryAt.None?)
    && (pc.Closing? ==> row.deliveryMessage.Some?)
    && (BeforeFallback(pc) && !pc.FallbackReady? ==> row.fallbackAt.None?)
    && (pc.FallbackReady? || pc.FallbackSent? || fallbacks > 0 ==> row.fallbackAt.Some?)
  }

  /** No fallback has been begun for a delivered run, and none can be. */
  predicate Undisputed(row: Run, pc: Pc, fallbacks: nat) {
    row.deliveryMessage.Some? ==>
      && fallbacks == 0 && !pc.FallbackReady? && !pc.FallbackSent?
      && (pc.Falling? || pc.Finishing? ==> !row.OwnedBy(1))
  }

  ghost predicate DeliveryInv(s: System) {
    && OnceInv(s)
    && if |s.workers| == 1 then DeliveryFits(s.row, s.workers[0].pc, s.fallbacks)
       else s.row.deliveryAt.None? && s.row.deliveryMessage.None? && s.row.fallbackAt.None?
  }

  ghost predicate NoDispute(s: System) { |s.workers| == 1 ==> Undisputed(s.row, s.workers[0].pc, s.fallbacks) }

  /** The two errors a delivered run can meet while its claim still owns it: the message was
    * recorded but the answer of `markDelivered` is lost, or the closing `finish` fails. */
  predicate LosesDelivery(s: System, step: Step)
    requires Enabled(s, step)
  {
    || (step.ResultArrives? && step.ack == Lost(true)
        && RunRows.Accepts(s.row, RunRows.MarkDelivered(s.workers[step.w].attempt, step.message), s.now))
    || (step.Close? && step.ack == Lost(false) && s.row.OwnedBy(s.workers[step.w].attempt))
  }

  lemma WorkerKeepsDelivery(row: Run, now: Instant, pc: Pc, step: Step, good: bool, fallbacks: nat)
    requires Ready(pc, step) && step.OfWorker() && DeliveryFits(row, pc, fallbacks)
    requires good == (Taken(row, now, 1, pc, step) && AckOf(step).Answered?)
    ensures DeliveryFits(RowAfter(row, now, 1, pc, step), PcAfter(pc, step, good),
                         fallbacks + if step.SendFallback? then 1 else 0)
  {
  }

  lemma WorkerKeepsPeace(row: Run, now: Instant, pc: Pc, step: Step, good: bool, fallbacks: nat)
    requires Ready(pc, step) && step.OfWorker() && DeliveryFits(row, pc, fallbacks) && Undisputed(row, pc, fallbacks)
    requires BeforeFallback(pc) ==> fallbacks == 0
    requires good == (Taken(row, now, 1, pc, step) && AckOf(step).Answered?)
    requires step.ResultArrives? ==> step.ack != Lost(true) || !Taken(row, now, 1, pc, step)
    requires step.Close? ==> step.ack != Lost(false) || !row.OwnedBy(1)
    ensures Undisputed(RowAfter(row, now, 1, pc, step), PcAfter(pc, step, good),
                       fallbacks + if step.SendFallback? then 1 else 0)
  {
  }

  lemma StepKeepsDelivery(s: System, step: Step)
    requires Enabled(s, step) && DeliveryInv(s)
    ensures DeliveryInv(After(s, step))
    ensures NoDispute(s) && !LosesDelivery(s, step) ==> NoDispute(After(s, step))
  {
    StepKeepsOnce(s, step);
    if step.OfWorker() {
      var pc := s.workers[0].pc;
      var good := Taken(s.row, StartOf(s, step), 1, pc, step) && AckOf(step).Answered?;
      WorkerKeepsDelivery(s.row, StartOf(s, step), pc, step, good, s.fallbacks);
      if NoDispute(s) && !LosesDelivery(s, step) {
        WorkerKeepsPeace(s.row, StartOf(s, step), pc, step, good, s.fallbacks);
      }
    }
  }

  lemma DeliveryAlways(states: seq<System>, steps: seq<Step>, i: nat)
    requires IsRun(states, steps) && i < |states|
    ensures DeliveryInv(states[i])
    ensures !NoDispute(states[i]) ==> exists k :: 0 <= k < i && LosesDelivery(states[k], steps[k])
  {
    if i > 0 {
      DeliveryAlways(states, steps, i - 1);
      assert states[i - 1 + 1] == After(states[i - 1], steps[i - 1]);
      StepKeepsDelivery(states[i - 1], steps[i - 1]);
    }
  }

  /** When a delivered run still gets a fallback, over every run: only after the claim, owning
    * the run, lost the answer of `markDelivered` or the closing `finish`. */
  lemma FallbackNeedsLoss(states: seq<System>, steps: seq<Step>, i: nat)
    requires IsRun(states, steps) && i < |states|
    requires states[i].row.deliveryMessage.Some? && states[i].fallbacks > 0
    ensures exists k :: 0 <= k < i && LosesDelivery(states[k], steps[k])
  {
    DeliveryAlways(states, steps, i);
  }

  // ---------- what is sent ----------

  /** The text on its way to be sent, or sent, is the one the row holds. */
  ghost predicate TextInv(s: System) {
    && DeliveryInv(s)
    && (|s.workers| == 1 && s.workers[0].pc.Prepared? ==> s.row.preparedText == Some(s.workers[0].pc.text))
    && (s.results != [] ==> s.row.preparedText == Some(s.results[0]))
  }

  lemma StepKeepsText(s: System, step: Step)
    requires Enabled(s, step) && TextInv(s)
    ensures TextInv(After(s, step))
  {
    StepKeepsDelivery(s, step);
  }

  /** What a scheduled run delivers was written to its row before: the send repeats the text
    * that `prepareDelivery` stored, in every run. */
  lemma SentWasPrepared(states: seq<System>, steps: seq<Step>, i: nat)
    requires IsRun(states, steps) && i < |states|
    ensures TextInv(states[i])
    ensures states[i].results != [] ==> states[i].row.preparedText == Some(states[i].results[0])
  {
    if i > 0 {
      SentWasPrepared(states, steps, i - 1);
      assert states[i - 1 + 1] == After(states[i - 1], steps[i - 1]);
      StepKeepsText(states[i - 1], steps[i - 1]);
    }
  }

  /** The fallback is begun, with an answer, and sent. */
  predicate FallsBack(s: System, ready: System, sent: System) {
    && Enabled(s, BeginFallback(0, Answered, s.now)) && ready == After(s, BeginFallback(0, Answered, s.now))
    && Enabled(ready, SendFallback(0)) && sent == After(ready, SendFallback(0))
  }

  /** The errors that a run whose result the transport accepted can meet while its claim still
    * owns it: `markDelivered` comes back with an error, whether it was recorded or not, or the
    * closing `finish` fails. */
  predicate LosesResult(s: System, step: Step)
    requires Enabled(s, step)
  {
    && (step.ResultArrives? || step.Close?) && s.row.OwnedBy(s.workers[step.w].attempt)
    && (step.ResultArrives? ==> step.ack.Lost?)
    && (step.Close? ==> step.ack == Lost(false))
  }

  /** The result was accepted, and nothing on the way to a fallback can be taken any more. */
  ghost predicate Accepted(s: System) {
    && DeliveryInv(s) && |s.workers| == 1 && s.fallbacks == 0
    && var pc := s.workers[0].pc;
       pc.Closing? || pc.Ended? || ((pc.Falling? || pc.Finishing?) && !s.row.OwnedBy(1))
  }

  lemma ArrivalIsAccepted(s: System, step: Step)
    requires Enabled(s, step) && DeliveryInv(s) && step.ResultArrives? && !LosesResult(s, step)
    ensures Accepted(After(s, step))
  {
    StepKeepsDelivery(s, step);
  }

  lemma StepKeepsAccepted(s: System, step: Step)
    requires Enabled(s, step) && Accepted(s) && !LosesResult(s, step)
    ensures Accepted(After(s, step))
  {
    StepKeepsDelivery(s, step);
    if step.OfWorker() { WorkersKeepClaim(s.row, StartOf(s, step), 1, s.workers[0].pc, step); }
  }

  /** The first such error between `k` and `i`, or `i` if there is none. */
  lemma FirstLoss(states: seq<System>, steps: seq<Step>, k: nat, i: nat) returns (j: nat)
    requires IsRun(states, steps) && k < i < |states| && steps[k].ResultArrives?
    ensures k <= j <= i && if j < i then LosesResult(states[j], steps[j]) else Accepted(states[i])
    decreases i
  {
    var s, step := states[i - 1], steps[i - 1];
    assert states[i - 1 + 1] == After(s, step);
    j := i;
    if i - 1 == k {
      DeliveryAlways(states, steps, k);
      if LosesResult(s, step) { j := k; } else { ArrivalIsAccepted(s, step); }
    } else {
      var earlier := FirstLoss(states, steps, k, i - 1);
      if earlier < i - 1 || LosesResult(s, step) { j := earlier; } else { StepKeepsAccepted(s, step); }
    }
  }

  /** Counted from the moment the transport accepted the result, recorded or not: a fallback
    * needs such an error, then or later. */
  lemma FallbackAfterArrivalNeedsLoss(states: seq<System>, steps: seq<Step>, k: nat, i: nat) returns (j: nat)
    requires IsRun(states, steps) && k < i < |states| && steps[k].ResultArrives?
    requires states[i].fallbacks > 0
    ensures k <= j < i && LosesResult(states[j], steps[j])
  {
    j := FirstLoss(states, steps, k, i);
  }

  /** And always then: right after any of these errors the fallback can be begun and sent, in
    * every run that gets there, beside a recorded delivery if there is one. */
  lemma LossAllowsFallback(states: seq<System>, steps: seq<Step>, k: nat) returns (ready: System, sent: System)
    requires IsRun(states, steps) && k < |steps| && LosesResult(states[k], steps[k])
    ensures FallsBack(states[k + 1], ready, sent)
    ensures |sent.results| == 1 && sent.fallbacks == 1
    ensures LosesDelivery(states[k], steps[k]) <==> sent.row.deliveryMessage.Some?
    ensures sent.row.OwnedBy(1) && sent.workers == [Worker(1, FallbackSent(false))]
  {
    var s, step := states[k], steps[k];
    assert states[k + 1] == After(s, step);
    DeliveryAlways(states, steps, k);
    LossFalls(s, step, states[k + 1]);
    ready, sent := FallingSends(states[k + 1]);
  }

  lemma LossFalls(s: System, step: Step, after: System)
    requires Enabled(s, step) && DeliveryInv(s) && LosesResult(s, step) && after == After(s, step)
    ensures after.workers == [Worker(1, Falling(false))] && after.row.OwnedBy(1) && after.row.fallbackAt.None?
    ensures after.row.deliveryMessage.Some? <==> LosesDelivery(s, step)
    ensures after.fallbacks == 0 && |after.results| == 1
  {
  }

  lemma FallingSends(s: System) returns (ready: System, sent: System)
    requires s.workers == [Worker(1, Falling(false))] && s.row.OwnedBy(1) && s.row.fallbackAt.None?
    ensures FallsBack(s, ready, sent)
    ensures sent.row == s.row.(fallbackAt := Some(s.now)) && sent.workers == [Worker(1, FallbackSent(false))]
    ensures sent.fallbacks == s.fallbacks + 1 && sent.results == s.results
  {
    ready := After(s, BeginFallback(0, Answered, s.now));
    assert ready.workers == [Worker(1, FallbackReady(false))];
    sent := After(ready, SendFallback(0));
  }

  // ---------- a run that does both ----------

  const BODY := Revision("report", Cron("0 9 * * *", "UTC"), Target(1, "home", Group), None)

  /** The run has come to `pc`, owned by its claim, with nothing of the fallback yet. */
  ghost predicate Reached(s: System, pc: Pc) {
    s.workers == [Worker(1, pc)] && s.row.OwnedBy(1) && s.row.leasedUntil.Some? && s.now <= s.row.leasedUntil.value
    && s.row.fallbackAt.None? && s.now == 10
  }

  lemma ReachComposed() returns (states: seq<System>, steps: seq<Step>)
    ensures IsRun(states, steps) && Reached(states[|steps|], Composed("done", true))
    ensures states[|steps|].row.deliveryAt.None? && states[|steps|].row.deliveryMessage.None?
  {
    states, steps := [Start(1, 10, BODY, 1, 10)], [];
    states, steps := Extend(states, steps, Claim(420_000));
    states, steps := Extend(states, steps, RunAgent(0));
    states, steps := Extend(states, steps, AgentEnds(0, "done", true));
  }

  lemma ReachSent() returns (states: seq<System>, steps: seq<Step>)
    ensures IsRun(states, steps) && Reached(states[|steps|], ResultSent(true))
    ensures states[|steps|].row.deliveryAt.Some? && states[|steps|].row.deliveryMessage.None?
  {
    states, steps := ReachComposed();
    states, steps := Extend(states, steps, TakeDelivery(0, 420_000, 10));
    states, steps := Extend(states, steps, Prepare(0, Answered, 10));
    states, steps := Extend(states, steps, SendResult(0));
  }

  /** The loss happens: a delivered run whose closing transaction fails. */
  lemma ReachLoss() returns (states: seq<System>, steps: seq<Step>)
    ensures IsRun(states, steps) && |steps| > 0 && LosesDelivery(states[|steps| - 1], steps[|steps| - 1])
  {
    states, steps := ReachSent();
    states, steps := Extend(states, steps, ResultArrives(0, "m1", Answered));
    ghost var closing := states[|steps|];
    states, steps := Extend(states, steps, Close(0, Lost(false)));
    assert states[|steps| - 1] == closing;
  }

  lemma ReachFallback() returns (states: seq<System>, steps: seq<Step>)
    ensures IsRun(states, steps)
    ensures var s := states[|steps|];
            && |s.results| == 1 && s.row.deliveryMessage.Some? && s.fallbacks == 1
            && s.row.OwnedBy(1) && s.workers == [Worker(1, FallbackSent(false))]
  {
    states, steps := ReachLoss();
    var _, _ := LossAllowsFallback(states, steps, |steps| - 1);
    states, steps := Extend(states, steps, BeginFallback(0, Answered, states[|steps|].now));
    states, steps := Extend(states, steps, SendFallback(0));
  }

  /** So the result and the fallback are not exclusive: a run that does both. */
  lemma FallbackAfterDelivery() returns (states: seq<System>, steps: seq<Step>)
    ensures IsRun(states, steps)
    ensures var s := states[|steps|];
            |s.results| == 1 && s.row.deliveryMessage.Some? && s.fallbacks == 1 && s.row.status.DeliveryUncertain?
  {
    states, steps := ReachFallback();
    states, steps := Extend(states, steps, FallbackEnds(0));
    states, steps := Extend(states, steps, Finish(0));
  }
}

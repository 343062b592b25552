/** From the tables to one scheduled run: whatever runs on the tables, the row of a scheduled
  * run moves as in a run of its protocol, as long as its workers make the calls. */
module RunProjection {
  import opened Records
  import opened Projection
  import SP = ScheduledRunProtocol
  import Protocol
  import RunRows

  /** The worker with a fencing number: there is never a second one. */
  predicate HasWorker(s: SP.System, attempt: nat) { |s.workers| == 1 && s.workers[0].attempt == attempt }

  /** Where the worker has to be to make the call. */
  predicate MadeCall(s: SP.System, call: RunRows.Call) {
    && HasWorker(s, call.attempt)
    && var pc := s.workers[0].pc;
       match call
       case PrepareDelivery(_, text) => pc.Owned? && pc.text == text
       case MarkDelivered(_, _) => pc.ResultSent?
       case BeginFallback(_) => pc.Falling?
       case _ => true
  }

  /** Which `finish` the worker makes, and where. */
  predicate MadeFinish(s: SP.System, attempt: nat, outcome: RunStatus, category: Option<string>) {
    && HasWorker(s, attempt)
    && var step := StepOfFinish(s.workers[0].pc, SP.Answered);
       SP.Ready(s.workers[0].pc, step) && SP.EndOf(s.workers[0].pc, step) == Some((outcome, category))
  }

  function StepOfFinish(pc: SP.Pc, ack: SP.Ack): SP.Step {
    if pc.Claimed? then SP.TaskMissing(0) else if pc.Closing? then SP.Close(0, ack) else SP.Finish(0)
  }

  predicate Made(s: SP.System, move: RunMove) {
    match move
    case RunCalled(call, now) => now <= s.now && MadeCall(s, call)
    case RunFinished(attempt, outcome, category) => MadeFinish(s, attempt, outcome, category)
    case RunExpired(clock) => clock <= s.now
    case _ => true
  }

  /** The protocol step of the move; `answered` says whether the answer gets back. A renewal
    * by a worker that has its text is the one that takes the delivery. */
  function StepOf(s: SP.System, move: RunMove, answered: bool): SP.Step
    requires Made(s, move)
  {
    var ack := if answered then SP.Answered else SP.Lost(true);
    match move
    case RunStays => SP.Tick(0)
    case RunCalled(call, now) =>
      (match call
       case ExtendLease(_, leaseMs) =>
         if s.workers[0].pc.Composed? && leaseMs >= SP.DELIVERY_LEASE then SP.TakeDelivery(0, leaseMs, now)
         else SP.Heartbeat(0, leaseMs, now)
       case PrepareDelivery(_, _) => SP.Prepare(0, ack, now)
       case MarkDelivered(_, message) => SP.ResultArrives(0, message, ack)
       case BeginFallback(_) => SP.BeginFallback(0, ack, now)
       case MarkWrite(_) => SP.BeginWrite(0, now))
    case RunClaimed(until) => SP.Claim(until - s.now)
    case RunFinished(_, _, _) => StepOfFinish(s.workers[0].pc, ack)
    case RunExpired(clock) => SP.Recover(clock)
    case RunCancelled => SP.Cancel
    case RunRebound(version, instruction, target, context) =>
      SP.Rebind(version, Revision(instruction, Cron("", ""), target, context))
  }

  lemma MoveIsStep(s: SP.System, row: Run, move: RunMove, answered: bool)
    requires RunMoves(s.row, row, move) && Made(s, move)
    ensures SP.Enabled(s, StepOf(s, move, answered)) && SP.After(s, StepOf(s, move, answered)).row == row
  {
  }

  // ---------- whole runs ----------

  datatype Act = Act(locals: seq<SP.Step>, move: RunMove, answered: bool)

  function AfterLocals(s: SP.System, locals: seq<SP.Step>): Option<SP.System>
    decreases |locals|
  {
    if locals == [] then Some(s)
    else if !SP.Enabled(s, locals[0]) || SP.After(s, locals[0]).row != s.row then None
    else AfterLocals(SP.After(s, locals[0]), locals[1..])
  }

  function AfterAct(s: SP.System, act: Act): Option<SP.System> {
    var mid := AfterLocals(s, act.locals);
    if mid.None? || !Made(mid.value, act.move) then None
    else if !SP.Enabled(mid.value, StepOf(mid.value, act.move, act.answered)) then Some(mid.value)
    else Some(SP.After(mid.value, StepOf(mid.value, act.move, act.answered)))
  }

  function Shadow(start: SP.System, acts: seq<Act>): Option<SP.System>
    decreases |acts|
  {
    if acts == [] then Some(start)
    else
      var before := Shadow(start, acts[..|acts| - 1]);
      if before.None? then None else AfterAct(before.value, acts[|acts| - 1])
  }

  ghost predicate Follows(states: seq<Protocol.System>, r: RunId, first: nat, acts: seq<Act>) {
    && first + |acts| < |states|
    && (forall i :: first <= i <= first + |acts| ==> r in states[i].db.runs)
    && forall i :: 0 <= i < |acts| ==>
         RunMoves(states[first + i].db.runs[r], states[first + i + 1].db.runs[r], acts[i].move)
  }

  lemma {:induction false} LocalsExtend(states: seq<SP.System>, steps: seq<SP.Step>, locals: seq<SP.Step>)
    returns (longer: seq<SP.System>, taken: seq<SP.Step>)
    requires SP.IsRun(states, steps) && AfterLocals(states[|steps|], locals).Some?
    ensures SP.IsRun(longer, taken) && longer[|taken|] == AfterLocals(states[|steps|], locals).value
    ensures longer[|taken|].row == states[|steps|].row && longer[0] == states[0]
    decreases |locals|
  {
    longer, taken := states, steps;
    if locals != [] {
      longer, taken := SP.Extend(states, steps, locals[0]);
      longer, taken := LocalsExtend(longer, taken, locals[1..]);
    }
  }

  lemma ActExtends(states: seq<SP.System>, steps: seq<SP.Step>, act: Act, row: Run)
    returns (longer: seq<SP.System>, taken: seq<SP.Step>)
    requires SP.IsRun(states, steps) && AfterAct(states[|steps|], act).Some?
    requires RunMoves(states[|steps|].row, row, act.move)
    ensures SP.IsRun(longer, taken) && longer[|taken|] == AfterAct(states[|steps|], act).value
    ensures longer[|taken|].row == row && longer[0] == states[0]
  {
    longer, taken := LocalsExtend(states, steps, act.locals);
    var mid := longer[|taken|];
    MoveIsStep(mid, row, act.move, act.answered);
    longer, taken := SP.Extend(longer, taken, StepOf(mid, act.move, act.answered));
  }

  lemma FollowsFront(states: seq<Protocol.System>, r: RunId, first: nat, acts: seq<Act>)
    requires Follows(states, r, first, acts) && acts != []
    ensures Follows(states, r, first, acts[..|acts| - 1])
  {
  }

  lemma {:induction false} HistoriesProject(states: seq<Protocol.System>, r: RunId, first: nat, acts: seq<Act>, start: SP.System)
    returns (ss: seq<SP.System>, taken: seq<SP.Step>)
    requires Follows(states, r, first, acts) && states[first].db.runs[r] == start.row
    requires SP.IsRun([start], [])
    requires Shadow(start, acts).Some?
    ensures SP.IsRun(ss, taken) && ss[0] == start && ss[|taken|] == Shadow(start, acts).value
    ensures ss[|taken|].row == states[first + |acts|].db.runs[r]
    decreases |acts|
  {
    if acts == [] {
      ss, taken := [start], [];
    } else {
      var front := acts[..|acts| - 1];
      FollowsFront(states, r, first, acts);
      ss, taken := HistoriesProject(states, r, first, front, start);
      ss, taken := ActExtends(ss, taken, acts[|acts| - 1], states[first + |acts|].db.runs[r]);
    }
  }

  // ---------- runs on the tables ----------

  /** The act is the step's move of the row; its local steps, and whether its answer gets
    * back, are not in the tables. */
  ghost predicate Copies(s: Protocol.System, step: Protocol.Step, r: RunId, act: Act) {
    && Protocol.Enabled(s, step) && r in s.db.runs && r in Protocol.After(s, step).db.runs
    && act.move == RunMoveOf(s, step, r)
  }

  /** The acts of the scheduled run are those of the run on the tables, from state `first` on. */
  ghost predicate Recorded(states: seq<Protocol.System>, steps: seq<Protocol.Step>, r: RunId, first: nat, acts: seq<Act>) {
    && Protocol.IsRun(states, steps) && first + |acts| < |states| && CreatedAt(states, steps, r, first)
    && forall i :: 0 <= i < |acts| ==> Copies(states[first + i], steps[first + i], r, acts[i])
  }

  lemma RunIsKept(states: seq<Protocol.System>, steps: seq<Protocol.Step>, r: RunId, first: nat, i: nat)
    requires Protocol.IsRun(states, steps) && first <= i < |states| && r in states[first].db.runs
    ensures r in states[i].db.runs
    decreases i
  {
    if first < i {
      RunIsKept(states, steps, r, first, i - 1);
      assert states[i - 1 + 1] == Protocol.After(states[i - 1], steps[i - 1]);
      RunRowsMoveOneByOne(states[i - 1], steps[i - 1], r);
    }
  }

  lemma StepMoves(states: seq<Protocol.System>, steps: seq<Protocol.Step>, r: RunId, k: nat, act: Act)
    requires Protocol.IsRun(states, steps) && k < |steps| && Copies(states[k], steps[k], r, act)
    ensures r in states[k].db.runs && r in states[k + 1].db.runs
    ensures RunMoves(states[k].db.runs[r], states[k + 1].db.runs[r], act.move)
  {
    RunRowsMoveOneByOne(states[k], steps[k], r);
  }

  /** Every run moves the row as its acts say; only the discipline is an assumption. */
  lemma RunsFollow(states: seq<Protocol.System>, steps: seq<Protocol.Step>, r: RunId, first: nat, acts: seq<Act>)
    requires Recorded(states, steps, r, first, acts)
    ensures Follows(states, r, first, acts)
  {
    forall i | first <= i <= first + |acts| ensures r in states[i].db.runs {
      RunIsKept(states, steps, r, first, i);
    }
    forall i | 0 <= i < |acts|
      ensures RunMoves(states[first + i].db.runs[r], states[first + i + 1].db.runs[r], acts[i].move)
    {
      StepMoves(states, steps, r, first + i, acts[i]);
    }
  }

  /** The scheduled run as `createDue` made it. */
  ghost function Born(states: seq<Protocol.System>, steps: seq<Protocol.Step>, r: RunId, first: nat): SP.System
    requires CreatedAt(states, steps, r, first)
  {
    var due, run := steps[first - 1], states[first].db.runs[r];
    var body := Revision(run.instruction, states[first - 1].db.tasks[due.task].schedule, run.target, run.context);
    SP.Start(due.task, due.scheduledFor, body, run.version, due.now)
  }

  /** It starts as the protocol starts. */
  lemma NewRunsStart(states: seq<Protocol.System>, steps: seq<Protocol.Step>, r: RunId, first: nat)
    requires CreatedAt(states, steps, r, first)
    ensures SP.IsRun([Born(states, steps, r, first)], []) && Born(states, steps, r, first).row == states[first].db.runs[r]
  {
  }

  /** The projection: for every run on the tables and every scheduled run in it whose calls
    * keep the discipline from its creation on, there is a run of its protocol that ends in the
    * same row. */
  lemma ScheduledRunsProject(states: seq<Protocol.System>, steps: seq<Protocol.Step>, r: RunId, first: nat, acts: seq<Act>)
    returns (ss: seq<SP.System>, taken: seq<SP.Step>)
    requires Recorded(states, steps, r, first, acts) && Shadow(Born(states, steps, r, first), acts).Some?
    ensures SP.IsRun(ss, taken) && ss[0] == Born(states, steps, r, first)
    ensures ss[|taken|] == Shadow(Born(states, steps, r, first), acts).value
    ensures r in states[first + |acts|].db.runs && ss[|taken|].row == states[first + |acts|].db.runs[r]
  {
    RunsFollow(states, steps, r, first, acts);
    NewRunsStart(states, steps, r, first);
    ss, taken := HistoriesProject(states, r, first, acts, Born(states, steps, r, first));
  }

  /** So what is proved of single runs holds in every run on the tables. */
  lemma TablesRunOnce(states: seq<Protocol.System>, steps: seq<Protocol.Step>, r: RunId, first: nat, acts: seq<Act>)
    requires Recorded(states, steps, r, first, acts) && Shadow(Born(states, steps, r, first), acts).Some?
    ensures var s := Shadow(Born(states, steps, r, first), acts).value;
            && r in states[first + |acts|].db.runs && s.row == states[first + |acts|].db.runs[r]
            && s.agentRuns <= 1 && |s.results| <= 1 && s.fallbacks <= 1
  {
    var ss, taken := ScheduledRunsProject(states, steps, r, first, acts);
    SP.EverythingOnce(ss, taken, |taken|);
  }
}

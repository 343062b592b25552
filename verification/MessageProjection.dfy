/** From the tables to one message: whatever runs on the tables, the row of an event moves as
  * in a run of the message protocol, as long as the calls that reach it are those its workers
  * and its gateway make. */
module MessageProjection {
  import opened Records
  import opened Projection
  import MP = MessageProtocol
  import P = ProgressReply
  import MessageSafety
  import MessageTheorems
  import Protocol
  import EventRows

  /** A worker that may still give its claim back. */
  predicate GivesUp(w: MP.Worker) { !w.pc.Ended? && !w.pc.Marking? && !w.pc.Settling? }

  predicate HasReply(w: MP.Worker) { w.snapshot.replyAt.Some? || w.pc.Sending? || w.pc.Sent? }

  function Minimum(drain: bool): int { if drain then MP.DEADLINE_DRAIN else 0 }

  /** When the worker that asked for `next` read its clock. */
  function ComputedAt(attempts: nat, drain: bool, next: Instant): Instant
    requires attempts >= 1
  {
    next - MP.NextAttemptAt(0, attempts, Minimum(drain))
  }

  /** The worker computed `next` after its claim and before the statement began. */
  predicate Computed(w: MP.Worker, a: nat, drain: bool, next: Instant, startedAt: Instant)
    requires a >= 1
  {
    w.claimedAt <= ComputedAt(a, drain, next) <= startedAt
  }

  /** Who makes which call, and when: the discipline of worker and gateway. */
  predicate MadeCall(s: MP.System, call: EventRows.Call, startedAt: Instant) {
    if call.AttachReaction? then s.gateway == MP.Holding(call.reaction)
    else
      && call.attempt in s.workers
      && var a, w := call.attempt, s.workers[call.attempt];
         match call
         case Complete(_, message, error) =>
           || (w.pc.Sent? && message.Some? && error.None?)
           || (&& GivesUp(w) && !HasReply(w) && a >= MP.MAX_AGENT_ATTEMPTS && message.None? && error.Some?
               && w.claimedAt <= startedAt)
         case MarkReplyUncertain(_) =>
           w.pc.Starting? && w.snapshot.replyAt.Some? && MP.Recovered(w.snapshot, s.now).None?
         case MarkReplyStarted(_, key, at, text, kind) =>
           key == s.id && (w.pc == MP.Marking(text, kind, at) || w.late == Some(MP.LateMark(text, kind, at)))
         case MarkProgressAttempted(_, at) => at <= startedAt && w.progress.marker.Asked?
         case ConfirmProgressSent(_, _) => w.progress.delivery.Over?
         case Retry(_, _, next) =>
           && a >= 1 && GivesUp(w) && (HasReply(w) || a < MP.MAX_AGENT_ATTEMPTS)
           && (Computed(w, a, false, next, startedAt) || Computed(w, a, true, next, startedAt))
         case _ => w.agentRan
  }

  /** One clock; what a call carries was computed before its statement began, and that was
    * before it committed. */
  predicate Made(s: MP.System, move: EventMove) {
    match move
    case Stay => true
    case Call(call, at) => at <= s.now && MadeCall(s, call, at)
    case Claim(leaseUntil, at) => leaseUntil - MP.LEASE <= at <= s.now
    case Expire(clock, at) => clock <= at <= s.now
  }

  /** The protocol step that makes the call; `answered` says whether its answer gets back. */
  function StepOfCall(s: MP.System, call: EventRows.Call, startedAt: Instant, answered: bool): MP.Step
    requires MadeCall(s, call, startedAt)
  {
    match call
    case Complete(a, message, error) =>
      if s.workers[a].pc.Sent? && message.Some? then MP.Delivered(a, message.value)
      else MP.Release(a, false, error.value, s.workers[a].claimedAt, startedAt)
    case MarkReplyUncertain(a) => MP.Inspect(a)
    case MarkReplyStarted(a, _, at, text, kind) =>
      if s.workers[a].pc == MP.Marking(text, kind, at) then MP.MarkReply(a) else MP.LateMarkArrives(a)
    case MarkProgressAttempted(a, at) => MP.Progress(a, P.MarkerAnswers(answered), at)
    case ConfirmProgressSent(a, message) => MP.ConfirmProgress(a, message)
    case Retry(a, code, next) =>
      var drain := !Computed(s.workers[a], a, false, next, startedAt);
      MP.Release(a, drain, code, ComputedAt(a, drain, next), startedAt)
    case MarkWrite(a) => MP.BeginWrite(a, startedAt)
    case AttachReaction(_) => MP.AttachReaction
  }

  function StepOf(s: MP.System, move: EventMove, answered: bool): MP.Step
    requires Made(s, move)
  {
    match move
    case Stay => MP.Tick(0)
    case Call(call, at) => StepOfCall(s, call, at, answered)
    case Claim(leaseUntil, _) => MP.Claim(leaseUntil - MP.LEASE)
    case Expire(clock, at) => MP.Recover(clock, at)
  }

  lemma CallIsCallOf(s: MP.System, call: EventRows.Call, startedAt: Instant, answered: bool)
    requires MadeCall(s, call, startedAt) && startedAt <= s.now
    ensures var step := StepOfCall(s, call, startedAt, answered);
            MP.Enabled(s, step) && !step.Claim? && !step.Recover? && MessageSafety.CallOf(s, step) == Some(call)
  {
  }

  /** Every move of the row that the discipline allows is a protocol step to the same row. */
  lemma MoveIsStep(s: MP.System, row: Event, move: EventMove, answered: bool)
    requires EventMoves(s.row, row, move) && Made(s, move)
    ensures MP.Enabled(s, StepOf(s, move, answered)) && MP.After(s, StepOf(s, move, answered)).row == row
  {
    if move.Call? {
      CallIsCallOf(s, move.eventCall, move.at, answered);
      MessageSafety.StepStores(s, StepOf(s, move, answered));
    }
  }

  // ---------- whole runs ----------

  /** What workers and gateway do between two transactions on the row, and whether the answer
    * of the next one gets back. */
  datatype Act = Act(locals: seq<MP.Step>, move: EventMove, answered: bool)

  /** Steps that leave the row alone, one after the other; `None` if one of them cannot be taken. */
  function AfterLocals(s: MP.System, locals: seq<MP.Step>): Option<MP.System>
    decreases |locals|
  {
    if locals == [] then Some(s)
    else if !MP.Enabled(s, locals[0]) || MP.After(s, locals[0]).row != s.row then None
    else AfterLocals(MP.After(s, locals[0]), locals[1..])
  }

  /** The message after one act; `None` if the act breaks the discipline. */
  function AfterAct(s: MP.System, act: Act): Option<MP.System> {
    var mid := AfterLocals(s, act.locals);
    if mid.None? || !Made(mid.value, act.move) then None
    else if !MP.Enabled(mid.value, StepOf(mid.value, act.move, act.answered)) then Some(mid.value)
    else Some(MP.After(mid.value, StepOf(mid.value, act.move, act.answered)))
  }

  function Shadow(start: MP.System, acts: seq<Act>): Option<MP.System>
    decreases |acts|
  {
    if acts == [] then Some(start)
    else
      var before := Shadow(start, acts[..|acts| - 1]);
      if before.None? then None else AfterAct(before.value, acts[|acts| - 1])
  }

  /** The acts move the row as the tables did from state `first` on. */
  ghost predicate Follows(states: seq<Protocol.System>, id: EventId, first: nat, acts: seq<Act>) {
    && first + |acts| < |states|
    && (forall i :: first <= i <= first + |acts| ==> id in states[i].db.events)
    && forall i :: 0 <= i < |acts| ==>
         EventMoves(states[first + i].db.events[id], states[first + i + 1].db.events[id], acts[i].move)
  }

  lemma {:induction false} LocalsExtend(states: seq<MP.System>, steps: seq<MP.Step>, locals: seq<MP.Step>)
    returns (longer: seq<MP.System>, taken: seq<MP.Step>)
    requires MP.IsRun(states, steps) && AfterLocals(states[|steps|], locals).Some?
    ensures MP.IsRun(longer, taken) && longer[|taken|] == AfterLocals(states[|steps|], locals).value
    ensures longer[|taken|].row == states[|steps|].row && longer[0] == states[0]
    decreases |locals|
  {
    longer, taken := states, steps;
    if locals != [] {
      MP.RunExtends(states, steps, locals[0]);
      longer, taken := states + [MP.After(states[|steps|], locals[0])], steps + [locals[0]];
      longer, taken := LocalsExtend(longer, taken, locals[1..]);
    }
  }

  lemma ActExtends(states: seq<MP.System>, steps: seq<MP.Step>, act: Act, row: Event)
    returns (longer: seq<MP.System>, taken: seq<MP.Step>)
    requires MP.IsRun(states, steps) && AfterAct(states[|steps|], act).Some?
    requires EventMoves(states[|steps|].row, row, act.move)
    ensures MP.IsRun(longer, taken) && longer[|taken|] == AfterAct(states[|steps|], act).value
    ensures longer[|taken|].row == row && longer[0] == states[0]
  {
    longer, taken := LocalsExtend(states, steps, act.locals);
    var mid := longer[|taken|];
    MoveIsStep(mid, row, act.move, act.answered);
    var step := StepOf(mid, act.move, act.answered);
    MP.RunExtends(longer, taken, step);
    longer, taken := longer + [MP.After(mid, step)], taken + [step];
  }

  lemma FollowsFront(states: seq<Protocol.System>, id: EventId, first: nat, acts: seq<Act>)
    requires Follows(states, id, first, acts) && acts != []
    ensures Follows(states, id, first, acts[..|acts| - 1])
  {
  }

  lemma {:induction false} HistoriesProject(states: seq<Protocol.System>, id: EventId, first: nat, acts: seq<Act>,
                                            start: MP.System)
    returns (ms: seq<MP.System>, taken: seq<MP.Step>)
    requires Follows(states, id, first, acts) && states[first].db.events[id] == start.row
    requires MP.IsRun([start], [])
    requires Shadow(start, acts).Some?
    ensures MP.IsRun(ms, taken) && ms[0] == start && ms[|taken|] == Shadow(start, acts).value
    ensures ms[|taken|].row == states[first + |acts|].db.events[id]
    decreases |acts|
  {
    if acts == [] {
      ms, taken := [start], [];
    } else {
      var front := acts[..|acts| - 1];
      FollowsFront(states, id, first, acts);
      ms, taken := HistoriesProject(states, id, first, front, start);
      ms, taken := ActExtends(ms, taken, acts[|acts| - 1], states[first + |acts|].db.events[id]);
    }
  }

  // ---------- runs on the tables ----------

  /** The act is the step's move of the row; its local steps, and whether its answer gets
    * back, are not in the tables. */
  ghost predicate Copies(s: Protocol.System, step: Protocol.Step, id: EventId, act: Act) {
    && Protocol.Enabled(s, step) && id in s.db.events && id in Protocol.After(s, step).db.events
    && act.move == EventMoveOf(s, step, id)
  }

  /** The acts of the event are those of the run on the tables, from state `first` on. */
  ghost predicate Recorded(states: seq<Protocol.System>, steps: seq<Protocol.Step>, id: EventId, first: nat, acts: seq<Act>) {
    && Protocol.IsRun(states, steps) && first + |acts| < |states| && ArrivesAt(states, steps, id, first)
    && forall i :: 0 <= i < |acts| ==> Copies(states[first + i], steps[first + i], id, acts[i])
  }

  lemma EventIsKept(states: seq<Protocol.System>, steps: seq<Protocol.Step>, id: EventId, first: nat, i: nat)
    requires Protocol.IsRun(states, steps) && first <= i < |states| && id in states[first].db.events
    ensures id in states[i].db.events
    decreases i
  {
    if first < i {
      EventIsKept(states, steps, id, first, i - 1);
      assert states[i - 1 + 1] == Protocol.After(states[i - 1], steps[i - 1]);
      EventRowsMoveOneByOne(states[i - 1], steps[i - 1], id);
    }
  }

  lemma StepMoves(states: seq<Protocol.System>, steps: seq<Protocol.Step>, id: EventId, k: nat, act: Act)
    requires Protocol.IsRun(states, steps) && k < |steps| && Copies(states[k], steps[k], id, act)
    ensures id in states[k].db.events && id in states[k + 1].db.events
    ensures EventMoves(states[k].db.events[id], states[k + 1].db.events[id], act.move)
  {
    EventRowsMoveOneByOne(states[k], steps[k], id);
  }

  /** Every run moves the row as its acts say; only the discipline is an assumption. */
  lemma RunsFollow(states: seq<Protocol.System>, steps: seq<Protocol.Step>, id: EventId, first: nat, acts: seq<Act>)
    requires Recorded(states, steps, id, first, acts)
    ensures Follows(states, id, first, acts)
  {
    forall i | first <= i <= first + |acts| ensures id in states[i].db.events {
      EventIsKept(states, steps, id, first, i);
    }
    forall i | 0 <= i < |acts|
      ensures EventMoves(states[first + i].db.events[id], states[first + i + 1].db.events[id], acts[i].move)
    {
      StepMoves(states, steps, id, first + i, acts[i]);
    }
  }

  /** The message as it arrived. */
  ghost function Arrived(states: seq<Protocol.System>, steps: seq<Protocol.Step>, id: EventId, first: nat): MP.System
    requires ArrivesAt(states, steps, id, first)
  {
    MP.Start(id, steps[first - 1].conversation, steps[first - 1].unsupported, steps[first - 1].at)
  }

  lemma ArrivedStarts(states: seq<Protocol.System>, steps: seq<Protocol.Step>, id: EventId, first: nat)
    requires ArrivesAt(states, steps, id, first)
    ensures MP.IsRun([Arrived(states, steps, id, first)], []) && Arrived(states, steps, id, first).row == states[first].db.events[id]
  {
  }

  /** The projection: for every run on the tables and every event in it whose calls keep the
    * discipline from its arrival on, there is a run of the message protocol that ends in the
    * same row. */
  lemma EventRunsProject(states: seq<Protocol.System>, steps: seq<Protocol.Step>, id: EventId, first: nat, acts: seq<Act>)
    returns (ms: seq<MP.System>, taken: seq<MP.Step>)
    requires Recorded(states, steps, id, first, acts) && Shadow(Arrived(states, steps, id, first), acts).Some?
    ensures MP.IsRun(ms, taken) && ms[0] == Arrived(states, steps, id, first)
    ensures ms[|taken|] == Shadow(Arrived(states, steps, id, first), acts).value
    ensures id in states[first + |acts|].db.events && ms[|taken|].row == states[first + |acts|].db.events[id]
  {
    RunsFollow(states, steps, id, first, acts);
    ArrivedStarts(states, steps, id, first);
    ms, taken := HistoriesProject(states, id, first, acts, Arrived(states, steps, id, first));
  }

  /** So what is proved of single messages holds in every run on the tables. */
  lemma TablesReplyOnce(states: seq<Protocol.System>, steps: seq<Protocol.Step>, id: EventId, first: nat, acts: seq<Act>)
    requires Recorded(states, steps, id, first, acts) && Shadow(Arrived(states, steps, id, first), acts).Some?
    ensures var s := Shadow(Arrived(states, steps, id, first), acts).value;
            && id in states[first + |acts|].db.events && s.row == states[first + |acts|].db.events[id]
            && MessageTheorems.SafetyInv(s) && |MessageTheorems.Delivered(s.sends)| <= 1
  {
    var ms, taken := EventRunsProject(states, steps, id, first, acts);
    MessageTheorems.SafetyAlways(ms, taken, |taken|);
    MessageTheorems.RepliesOnce(ms, taken, |taken|);
  }
}

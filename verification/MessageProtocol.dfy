/** One message, from its arrival to its terminal state: the row, every worker that ever
  * claimed it, and the effects the world has seen.
  *
  * Workers crash, stall and outlive their lease; calls they no longer await may still
  * commit. One clock is read by workers and database. */
module MessageProtocol {
  import opened Records
  import EventRows
  import P = ProgressReply

  const LEASE := 20 * 60 * 1000
  const REPLY_WINDOW := 60 * 60 * 1000
  const MAX_BACKOFF := 300_000
  const DEADLINE_DRAIN := 2 * 60 * 1000
  const MAX_AGENT_ATTEMPTS := 3

  /** Where a worker is in `process`. */
  datatype Pc =
    | Starting
    | Composing
    | AgentRunning
    | Settling(text: string, kind: ReplyKind, call: nat)
    | Marking(text: string, kind: ReplyKind, at: Instant)
    | Abandoned
    | Sending(reply: Reply)
    | Sent(reply: Reply)
    | Ended

  /** A `markReplyStarted` call that its worker stopped waiting for. */
  datatype LateMark = LateMark(text: string, kind: ReplyKind, at: Instant)

  /** `granted` counts committed `beginWrite` calls whose operation has not started yet. */
  datatype Worker = Worker(
    snapshot: Event,
    claimedAt: Instant,
    pc: Pc,
    agentRan: bool,
    granted: nat,
    late: Option<LateMark>,
    progress: P.State)

  datatype Gateway = Idle | Holding(reaction: string) | Settled

  datatype Remover = ByGateway | ByWorker(attempt: nat)

  datatype Handed = Handed(who: Remover, reaction: string)

  /** A `markReplyStarted` that took effect. */
  datatype Mark = Mark(attempt: nat, at: Instant, reply: Reply)

  datatype Send = Send(attempt: nat, reply: Reply)

  datatype System = System(
    id: EventId,
    now: Instant,
    row: Event,
    workers: map<nat, Worker>,
    gateway: Gateway,
    // what has happened so far
    lastClaim: Instant,
    marks: seq<Mark>,
    sends: seq<Send>,
    boundary: Option<nat>,
    agentRuns: seq<nat>,
    writes: seq<nat>,
    admitted: Option<nat>,
    progressSends: seq<nat>,
    added: Option<string>,
    handed: seq<Handed>)

  function Start(id: EventId, conversation: ChatId, unsupported: bool, at: Instant): System {
    System(id, at, EventRows.Fresh(conversation, unsupported, at), map[], Idle,
           at, [], [], None, [], [], None, [], None, [])
  }

  // ---------- the calls workers make ----------

  /** A fenced call whose statement began at `startedAt`: the row after it, and the record of
    * what it did. */
  function Fenced(s: System, call: EventRows.Call, startedAt: Instant): System {
    if !EventRows.Accepts(s.row, call) then s
    else
      s.(row := EventRows.Apply(s.row, call, startedAt),
      marks := if call.MarkReplyStarted?
      then s.marks + [Mark(call.attempt, call.at, Reply(call.key, call.text, call.kind))] else s.marks,
      boundary := if call.MarkWrite? && s.row.writeStartedAt.None? then Some(call.attempt) else s.boundary,
      admitted := if call.MarkProgressAttempted? then Some(call.attempt) else s.admitted,
      handed := if (call.Complete? || call.MarkReplyUncertain?) && s.row.reaction.Some?
      then s.handed + [Handed(ByWorker(call.attempt), s.row.reaction.value)] else s.handed)
  }

  function Put(s: System, a: nat, w: Worker): System { s.(workers := s.workers[a := w]) }

  function Backoff(attempts: nat): int
    requires attempts >= 1
  {
    if attempts > 5 then MAX_BACKOFF else Min(30_000 * Power(attempts - 1), MAX_BACKOFF)
  }

  function Power(n: nat): nat { if n == 0 then 1 else 2 * Power(n - 1) }

  function NextAttemptAt(now: Instant, attempts: nat, minimum: int): Instant
    requires attempts >= 1
  {
    now + Max(Backoff(attempts), minimum)
  }

  /** The retry of a worker that read its clock at `computedAt`. */
  function RetryCall(computedAt: Instant, a: nat, drain: bool, code: string): EventRows.Call
    requires a >= 1
  {
    EventRows.Retry(a, code, NextAttemptAt(computedAt, a, if drain then DEADLINE_DRAIN else 0))
  }

  /** `retry` once a reply exists, `failBeforeReply` before. */
  function ReleaseCall(computedAt: Instant, a: nat, w: Worker, drain: bool, code: string): EventRows.Call
    requires a >= 1
  {
    if w.snapshot.replyAt.Some? || w.pc.Sending? || w.pc.Sent? || a < MAX_AGENT_ATTEMPTS
    then RetryCall(computedAt, a, drain, code)
    else EventRows.Complete(a, None, Some(code))
  }

  /** The reply a recovering worker finds in its snapshot, if it may still send it. An
    * empty text reads as missing. */
  function Recovered(snapshot: Event, now: Instant): Option<Reply>
    requires snapshot.replyAt.Some?
  {
    if now - snapshot.replyAt.value >= REPLY_WINDOW || snapshot.replyKey.None? || snapshot.outcome.None? then None
    else
      var outcome := snapshot.outcome.value;
      if outcome.text.None? || outcome.text.value == "" || outcome.kind.None? then None
      else Some(Reply(snapshot.replyKey.value, outcome.text.value, outcome.kind.value))
  }

  // ---------- steps ----------

  /** `computedAt` is when a worker read its clock for a call, `startedAt` when the database
    * read its own for the statement; the step is the commit, which may come long after both. */
  datatype Step =
    | Tick(ms: nat)
    | Claim(computedAt: Instant)
    | Recover(computedAt: Instant, startedAt: Instant)
    | Inspect(a: nat)
    | Compose(a: nat, text: string)
    | AgentReplies(a: nat, text: string)
    | AgentFails(a: nat, text: string, computedAt: Instant, startedAt: Instant)
    | BeginWrite(a: nat, startedAt: Instant)
    | PerformWrite(a: nat)
    | Settle(a: nat)
    | MarkReply(a: nat)
    | AbandonMark(a: nat)
    | LateMarkArrives(a: nat)
    | SendReply(a: nat)
    | Delivered(a: nat, message: string)
    | Release(a: nat, drain: bool, code: string, computedAt: Instant, startedAt: Instant)
    | Crash(a: nat)
    | Progress(a: nat, inner: P.Step, computedAt: Instant)
    | ConfirmProgress(a: nat, message: string)
    | AddReaction(reaction: string)
    | AttachReaction
  {
    predicate OfWorker() { !Tick? && !Claim? && !Recover? && !AddReaction? && !AttachReaction? }
  }

  predicate Enabled(s: System, step: Step) {
    match step
    case Tick(_) => true
    case Claim(computedAt) =>
      s.row.status.Queued? && s.row.nextAttemptAt <= s.now && computedAt <= s.now
    case Recover(computedAt, startedAt) => EventRows.Expired(s.row, computedAt) && computedAt <= startedAt <= s.now
    case Inspect(a) => a in s.workers && s.workers[a].pc.Starting?
    case Compose(a, _) => a in s.workers && s.workers[a].pc.Composing?
    case AgentReplies(a, _) => a in s.workers && s.workers[a].pc.AgentRunning?
    case AgentFails(a, _, computedAt, startedAt) =>
      && a in s.workers && s.workers[a].pc.AgentRunning?
      && s.workers[a].claimedAt <= computedAt <= startedAt <= s.now
    case BeginWrite(a, startedAt) => a in s.workers && s.workers[a].agentRan && startedAt <= s.now
    case PerformWrite(a) => a in s.workers && s.workers[a].granted > 0
    case Settle(a) =>
      a in s.workers && s.workers[a].pc.Settling? && s.workers[a].pc.call < |s.workers[a].progress.calls|
      && s.workers[a].progress.calls[s.workers[a].pc.call].Returned?
    case MarkReply(a) => a in s.workers && s.workers[a].pc.Marking?
    case AbandonMark(a) => a in s.workers && s.workers[a].pc.Marking?
    case LateMarkArrives(a) => a in s.workers && s.workers[a].late.Some?
    case SendReply(a) => a in s.workers && s.workers[a].pc.Sending?
    case Delivered(a, _) => a in s.workers && s.workers[a].pc.Sent?
    case Release(a, _, _, computedAt, startedAt) =>
      && a >= 1 && a in s.workers && !s.workers[a].pc.Ended? && !s.workers[a].pc.Marking? && !s.workers[a].pc.Settling?
      && s.workers[a].claimedAt <= computedAt <= startedAt <= s.now
    case Crash(a) => a in s.workers
    case Progress(a, inner, computedAt) =>
      && a in s.workers && P.Enabled(s.workers[a].progress, inner) && computedAt <= s.now
      // a timer does not fire early
      && (inner.TimerFires? ==> s.workers[a].snapshot.receivedAt + P.PROGRESS_REPLY_DELAY <= s.now)
    case ConfirmProgress(a, _) => a in s.workers && s.workers[a].progress.delivery.Over?
    case AddReaction(_) => s.gateway.Idle?
    case AttachReaction => s.gateway.Holding?
  }

  /** The worker asks its progress reply to settle before it fixes its own reply. */
  function ToSettle(w: Worker, text: string, kind: ReplyKind): Worker {
    w.(pc := Settling(text, kind, |w.progress.calls|), progress := P.After(w.progress, P.CallSettle))
  }

  function MarkCall(s: System, a: nat, text: string, kind: ReplyKind, at: Instant): EventRows.Call {
    EventRows.MarkReplyStarted(a, s.id, at, text, kind)
  }

  predicate NeedsAgent(w: Worker) { !w.snapshot.unsupported && w.snapshot.writeStartedAt.None? }

  /** What a step of worker `a` does to the row and to the outside. */
  function Effects(s: System, step: Step): System
    requires Enabled(s, step) && step.OfWorker()
  {
    var a, w := step.a, s.workers[step.a];
    match step
    case Inspect(_) =>
      if w.snapshot.replyAt.Some? && Recovered(w.snapshot, s.now).None?
      then Fenced(s, EventRows.MarkReplyUncertain(a), s.now) else s
    case Compose(_, _) => if NeedsAgent(w) then s.(agentRuns := s.agentRuns + [a]) else s
    case AgentFails(_, _, computedAt, startedAt) =>
      if 1 <= a < MAX_AGENT_ATTEMPTS then Fenced(s, RetryCall(computedAt, a, false, "agent_failed"), startedAt) else s
    case BeginWrite(_, startedAt) => Fenced(s, EventRows.MarkWrite(a), startedAt)
    case PerformWrite(_) => s.(writes := s.writes + [a])
    case MarkReply(_) => Fenced(s, MarkCall(s, a, w.pc.text, w.pc.kind, w.pc.at), s.now)
    case LateMarkArrives(_) => Fenced(s, MarkCall(s, a, w.late.value.text, w.late.value.kind, w.late.value.at), s.now)
    case SendReply(_) => s.(sends := s.sends + [Send(a, w.pc.reply)])
    case Delivered(_, message) => Fenced(s, EventRows.Complete(a, Some(message), None), s.now)
    case Release(_, drain, code, computedAt, startedAt) => Fenced(s, ReleaseCall(computedAt, a, w, drain, code), startedAt)
    case Progress(_, inner, computedAt) =>
      if inner.MarkerAnswers? then Fenced(s, EventRows.MarkProgressAttempted(a, computedAt), s.now)
      else s.(progressSends := if StartsDelivery(w.progress, inner) then s.progressSends + [a] else s.progressSends)
    case ConfirmProgress(_, message) => Fenced(s, EventRows.ConfirmProgressSent(a, message), s.now)
    case _ => s
  }

  predicate StartsDelivery(progress: P.State, inner: P.Step)
    requires P.Enabled(progress, inner)
  {
    P.After(progress, inner).delivery.Sending? && !progress.delivery.Sending?
  }

  /** The store call of a marker commits even when its answer is lost on the way back. */
  function ProgressAfter(s: System, a: nat, inner: P.Step): P.State
    requires a in s.workers && P.Enabled(s.workers[a].progress, inner)
  {
    var call := EventRows.MarkProgressAttempted(a, s.now);
    P.After(s.workers[a].progress,
            if inner.MarkerAnswers? then P.MarkerAnswers(inner.admitted && EventRows.Accepts(s.row, call)) else inner)
  }

  /** Where a step of worker `a` leaves the worker. */
  function Moved(s: System, step: Step): Worker
    requires Enabled(s, step) && step.OfWorker()
  {
    var a, w := step.a, s.workers[step.a];
    match step
    case Inspect(_) =>
      if w.snapshot.replyAt.None? then w.(pc := Composing)
      else
        var reply := Recovered(w.snapshot, s.now);
        w.(pc := if reply.Some? then Sending(reply.value) else Ended)
    case Compose(_, text) =>
      if NeedsAgent(w) then w.(pc := AgentRunning, agentRan := true)
      else ToSettle(w, text, if w.snapshot.unsupported then Control else Rich)
    case AgentReplies(_, text) => ToSettle(w, text, Rich)
    case AgentFails(_, text, _, _) => if a < MAX_AGENT_ATTEMPTS then w.(pc := Ended) else ToSettle(w, text, Control)
    case BeginWrite(_, _) => if EventRows.Accepts(s.row, EventRows.MarkWrite(a)) then w.(granted := w.granted + 1) else w
    case PerformWrite(_) => w.(granted := w.granted - 1)
    case Settle(_) => w.(pc := Marking(w.pc.text, w.pc.kind, s.now))
    case MarkReply(_) =>
      w.(pc := if EventRows.Accepts(s.row, MarkCall(s, a, w.pc.text, w.pc.kind, w.pc.at))
      then Sending(Reply(s.id, w.pc.text, w.pc.kind)) else Ended)
    case AbandonMark(_) => w.(pc := Abandoned, late := Some(LateMark(w.pc.text, w.pc.kind, w.pc.at)))
    case LateMarkArrives(_) => w.(late := None)
    case SendReply(_) => w.(pc := Sent(w.pc.reply))
    case Progress(_, inner, _) => w.(progress := ProgressAfter(s, a, inner))
    case ConfirmProgress(_, _) => w
    case _ => w.(pc := Ended)
  }

  function DoAttach(s: System): System
    requires s.gateway.Holding?
  {
    var call := EventRows.AttachReaction(s.gateway.reaction);
    if EventRows.Accepts(s.row, call) then Fenced(s, call, s.now).(gateway := Settled)
    else s.(gateway := Settled, handed := s.handed + [Handed(ByGateway, s.gateway.reaction)])
  }

  function After(s: System, step: Step): System
    requires Enabled(s, step)
  {
    match step
    case Tick(ms) => s.(now := s.now + ms)
    case Claim(computedAt) =>
      var row := EventRows.Claim(s.row, computedAt + LEASE);
      Put(s, row.attempts, Worker(row, s.now, Starting, false, 0, None, P.Start(row, s.now)))
      .(row := row, lastClaim := s.now)
    case Recover(_, startedAt) => s.(row := EventRows.Expire(s.row, startedAt))
    case AddReaction(reaction) => s.(gateway := Holding(reaction), added := Some(reaction))
    case AttachReaction => DoAttach(s)
    case _ => Put(Effects(s, step), step.a, Moved(s, step))
  }

  ghost predicate IsRun(states: seq<System>, steps: seq<Step>) {
    && |states| == |steps| + 1
    && (exists id, conversation, unsupported, at :: states[0] == Start(id, conversation, unsupported, at))
    && forall i {:trigger steps[i]} :: 0 <= i < |steps| ==>
         Enabled(states[i], steps[i]) && states[i + 1] == After(states[i], steps[i])
  }

  lemma RunExtends(states: seq<System>, steps: seq<Step>, step: Step)
    requires IsRun(states, steps) && Enabled(states[|steps|], step)
    ensures IsRun(states + [After(states[|steps|], step)], steps + [step])
  {
    var longer, taken := states + [After(states[|steps|], step)], steps + [step];
    assert longer[0] == states[0];
    forall i | 0 <= i < |taken|
      ensures Enabled(longer[i], taken[i]) && longer[i + 1] == After(longer[i], taken[i])
    {
      if i < |steps| { assert taken[i] == steps[i]; }
    }
  }

  lemma IdIsKept(s: System, step: Step)
    requires Enabled(s, step)
    ensures After(s, step).id == s.id
  {
  }
}

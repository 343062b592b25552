/** The code of the message worker and of the gateway's tail, on the event store. What they
  * do to the store and to the outside is recorded as a run of the message protocol, so
  * everything proved of those runs holds of this code. */
module MessageWorker {
  import opened Records
  import opened EventStore
  import EventRows
  import Tables
  import MP = MessageProtocol
  import P = ProgressReply
  import MessageTheorems

  // ---------- what the worker cannot control ----------

  datatype Answer = Fine | Fails | TimesOut

  datatype TextAnswer = Text(text: string) | TextFails | TextTimesOut

  /** `late`: the abandoned call still commits. */
  datatype MarkAnswer = Marked | MarkFails | MarkTimesOut(late: bool)

  datatype DeliveryAnswer = Arrives(message: string) | Rejected | DeliveryTimesOut

  /** How long the agent works, how often it writes, and how each call of one claim ends. */
  datatype World = World(
    stored: Answer,
    attempts: TextAnswer,
    agent: TextAnswer,
    agentMs: nat,
    agentWrites: nat,
    mark: MarkAnswer,
    delivery: DeliveryAnswer,
    appended: Answer)

  datatype Ending = Ended | Deadline | Threw

  const UNSUPPORTED := "unsupported"
  const TEMPORARY := "temporary"

  /** The history of one message and the row it is about. */
  class Message {
    const store: EventStore
    const id: EventId
    ghost var states: seq<MP.System>
    ghost var steps: seq<MP.Step>

    ghost predicate Valid()
      reads this, store.db
    {
      MP.IsRun(states, steps) && id in store.db.events && Now().row == store.db.events[id] && Now().id == id
    }

    ghost function Now(): MP.System
      requires states != []
      reads this
    {
      states[|states| - 1]
    }

    /** The message as `enqueue` stores it. */
    constructor (store: EventStore, id: EventId, conversation: ChatId, unsupported: bool, now: Instant)
      requires id in store.db.events && store.db.events[id] == EventRows.Fresh(conversation, unsupported, now)
      ensures Valid() && this.store == store && this.id == id
      ensures Now() == MP.Start(id, conversation, unsupported, now)
    {
      this.store, this.id := store, id;
      states, steps := [MP.Start(id, conversation, unsupported, now)], [];
    }

    ghost method Note(step: MP.Step)
      requires MP.IsRun(states, steps) && MP.Enabled(Now(), step)
      requires id in store.db.events && MP.After(Now(), step).row == store.db.events[id] && Now().id == id
      modifies this
      ensures Valid() && Now() == MP.After(old(Now()), step)
      ensures states == old(states) + [Now()]
    {
      MP.IdIsKept(Now(), step);
      MP.RunExtends(states, steps, step);
      states, steps := states + [MP.After(Now(), step)], steps + [step];
    }
  }

  /** The history is sound and knows claim `a`, whose worker read the row as `event`. */
  ghost predicate At(m: Message, a: nat, event: Event)
    reads m, m.store.db
  {
    m.Valid() && a >= 1 && a in m.Now().workers && m.Now().workers[a].snapshot == event
  }

  ghost function Pc(m: Message, a: nat): MP.Pc
    requires m.states != [] && a in m.Now().workers
    reads m
  {
    m.Now().workers[a].pc
  }

  /** The history only grows. */
  twostate predicate Continues(m: Message)
    reads m
  {
    |old(m.states)| <= |m.states| && m.states[..|old(m.states)|] == old(m.states)
  }

  /** It grows, and neither sends a reply nor runs the agent nor lets time pass. */
  twostate predicate Silent(m: Message)
    requires old(m.states) != [] && m.states != []
    reads m
  {
    && Continues(m)
    && m.Now().sends == old(m.Now().sends)
    && m.Now().agentRuns == old(m.Now().agentRuns)
    && m.Now().now == old(m.Now().now)
  }

  /** Nothing is computed for a claim before it is made. */
  lemma ClaimIsPast(m: Message, a: nat, event: Event)
    requires At(m, a, event)
    ensures m.Now().workers[a].claimedAt <= m.Now().now
  {
    MessageTheorems.SafetyAlways(m.states, m.steps, |m.states| - 1);
  }

  // ---------- what becomes of the row ----------

  /** 30 seconds, doubled with every attempt, five minutes at most. */
  function Pause(a: nat): int
    requires a >= 1
  {
    if a == 1 then 30_000 else if a == 2 then 60_000 else if a == 3 then 120_000 else if a == 4 then 240_000 else 300_000
  }

  lemma BackoffIsPause(a: nat)
    requires a >= 1
    ensures MP.Backoff(a) == Pause(a)
  {
    assert MP.Power(0) == 1 && MP.Power(1) == 2 && MP.Power(2) == 4;
    assert MP.Power(3) == 8 && MP.Power(4) == 16;
  }

  /** The row waits for its next attempt. */
  function Requeued(row: Event, a: nat, drain: bool, code: string, now: Instant): Event
    requires a >= 1
  {
    row.(status := EventStatus.Queued, leasedUntil := None,
    nextAttemptAt := now + if drain then Max(Pause(a), 120_000) else Pause(a),
    outcome := Some((if row.outcome.Some? then row.outcome.value else Outcome(None, None, None, None)).(errorCode := Some(code))))
  }

  /** The row of a message that gets no reply: another attempt, or the error after the third. */
  function GivenUp(row: Event, a: nat, drain: bool, code: string, now: Instant): Event
    requires a >= 1
  {
    if a <= 2 then Requeued(row, a, drain, code, now)
    else
      row.(status := EventStatus.Completed, leasedUntil := None, reaction := None,
      outcome := Some(Outcome(None, Some(code), None, None)))
  }

  /** The row with a reply that was fixed at `at`. */
  function WithReply(row: Event, reply: Reply, at: Instant): Event {
    row.(replyKey := Some(reply.key), replyAt := Some(at),
    outcome := Some(Outcome(None, None, Some(reply.text), Some(reply.kind))))
  }

  /** The row after the agent's writes: the first one marks it. */
  function Written(row: Event, writes: nat, now: Instant): Event {
    if writes == 0 || row.writeStartedAt.Some? then row else row.(writeStartedAt := Some(now))
  }

  predicate RunsAgent(event: Event) { !event.unsupported && event.writeStartedAt.None? }

  /** What the claim says if it comes to say anything. */
  function Composed(event: Event, world: World, a: nat): Option<(string, ReplyKind)> {
    if event.unsupported then Some((UNSUPPORTED, Control))
    else if event.writeStartedAt.Some? then (if world.attempts.Text? then Some((world.attempts.text, Rich)) else None)
    else if world.agent.Text? then Some((world.agent.text, Rich))
    else if world.agent.TextFails? && a > 2 then Some((TEMPORARY, Control))
    else None
  }

  /** The row of a claim that ends before its reply is fixed in time. */
  function Unanswered(row: Event, event: Event, world: World, a: nat, id: EventId, now: Instant): Event
    requires a >= 1
  {
    var composed := Composed(event, world, a);
    if composed.Some? then
      match world.mark
      case Marked => row
      case MarkFails => row
      case MarkTimesOut(late) =>
        var reply := Reply(id, composed.value.0, composed.value.1);
        GivenUp(if late then WithReply(row, reply, now) else row, a, true, "processing_deadline_exceeded", now)
    else if event.writeStartedAt.Some? then
      if world.attempts.TextFails? then row else GivenUp(row, a, true, "processing_deadline_exceeded", now)
    else if world.agent.TextFails? then Requeued(row, a, false, "agent_failed", now)
    else GivenUp(row, a, true, "processing_deadline_exceeded", now)
  }

  /** How a claim ends that does not come to send. */
  function EndingUnsent(event: Event, world: World, a: nat): Ending {
    if Composed(event, world, a).Some? then (if world.mark.MarkTimesOut? then Deadline else Threw)
    else if event.writeStartedAt.Some? then (if world.attempts.TextTimesOut? then Deadline else Threw)
    else if world.agent.TextTimesOut? then Deadline
    else Ending.Ended
  }

  /** How a claim ends that has sent its reply. */
  function EndingSent(reply: Reply, world: World): Ending {
    match world.delivery
    case Rejected => Ending.Ended
    case DeliveryTimesOut => Deadline
    case Arrives(message) =>
      if message == "" || reply.text == "" || world.appended.Fails? then Threw
      else if world.appended.TimesOut? then Deadline
      else Ending.Ended
  }

  /** The row after the reply was sent. */
  function Delivered(row: Event, reply: Reply, world: World, a: nat, now: Instant): Event
    requires a >= 1
  {
    match world.delivery
    case Rejected => Requeued(row, a, false, "reply_failed", now)
    case DeliveryTimesOut => Requeued(row, a, true, "processing_deadline_exceeded", now)
    case Arrives(message) =>
      if message == "" || reply.text == "" || world.appended.Fails? then row
      else if world.appended.TimesOut? then Requeued(row, a, true, "processing_deadline_exceeded", now)
      else
        row.(status := EventStatus.Completed, leasedUntil := None, reaction := None,
        outcome := Some(Outcome(Some(message), None, None, None)))
  }

  /** What the claim hands to the gateway for removal is what it took out of the row. */
  ghost predicate HandsOver(before: MP.System, after: MP.System, a: nat, removed: Option<string>) {
    after.handed == before.handed + if removed.Some? then [MP.Handed(MP.ByWorker(a), removed.value)] else []
  }

  /** The removed reaction is the one the row held, and it is removed exactly when the claim
    * ends the message. */
  ghost predicate Removes(before: Event, after: Event, a: nat, removed: Option<string>) {
    removed == if before.OwnedBy(a) && (after.status.Completed? || after.status.Failed?) then before.reaction else None
  }

  /** Nothing but the history moves. */
  twostate predicate Still(m: Message)
    requires old(m.states) != [] && m.states != []
    reads m
  {
    Silent(m) && m.Now().row == old(m.Now().row) && m.Now().handed == old(m.Now().handed)
  }

  // ---------- single steps ----------

  ghost method NoteRelease(m: Message, a: nat, event: Event, drain: bool, code: string, now: Instant)
    requires MP.IsRun(m.states, m.steps) && m.Now().now == now && m.Now().id == m.id && m.id in m.store.db.events
    requires a >= 1 && a in m.Now().workers && m.Now().workers[a].snapshot == event && m.Now().workers[a].claimedAt <= now
    requires !Pc(m, a).Ended? && !Pc(m, a).Marking? && !Pc(m, a).Settling?
    requires m.store.db.events[m.id] == MP.Fenced(m.Now(), MP.ReleaseCall(now, a, m.Now().workers[a], drain, code), now).row
    modifies m
    ensures At(m, a, event) && Pc(m, a).Ended? && Silent(m)
    ensures m.Now().handed == old(MP.Fenced(m.Now(), MP.ReleaseCall(now, a, m.Now().workers[a], drain, code), now)).handed
  {
    m.Note(MP.Release(a, drain, code, now, now));
  }

  /** `retry`. */
  method PutBack(m: Message, a: nat, event: Event, drain: bool, code: string, now: Instant)
    requires At(m, a, event) && m.Now().now == now
    requires !Pc(m, a).Ended? && !Pc(m, a).Marking? && !Pc(m, a).Settling?
    requires event.replyAt.Some? || Pc(m, a).Sending? || Pc(m, a).Sent? || a < 3
    modifies m, m.store.db
    ensures At(m, a, event) && Pc(m, a).Ended? && Silent(m) && m.Now().handed == old(m.Now().handed)
    ensures m.Now().row == if old(m.Now().row.OwnedBy(a)) then Requeued(old(m.Now().row), a, drain, code, now)
                           else old(m.Now().row)
  {
    BackoffIsPause(a);
    ClaimIsPast(m, a, event);
    var minimum := 0;
    if drain { minimum := MP.DEADLINE_DRAIN; }
    var _ := m.store.Retry(m.id, a, code, MP.NextAttemptAt(now, a, minimum), now);
    NoteRelease(m, a, event, drain, code, now);
  }

  /** `complete` with an error, when no reply has been fixed. */
  method EndUnanswered(m: Message, a: nat, event: Event, drain: bool, code: string, now: Instant)
    returns (removed: Option<string>)
    requires At(m, a, event) && m.Now().now == now
    requires !Pc(m, a).Ended? && !Pc(m, a).Marking? && !Pc(m, a).Settling?
    requires event.replyAt.None? && !Pc(m, a).Sending? && !Pc(m, a).Sent? && a >= 3
    modifies m, m.store.db
    ensures At(m, a, event) && Pc(m, a).Ended? && Silent(m) && HandsOver(old(m.Now()), m.Now(), a, removed)
    ensures m.Now().row == if old(m.Now().row.OwnedBy(a)) then GivenUp(old(m.Now().row), a, drain, code, now)
                           else old(m.Now().row)
    ensures removed == if old(m.Now().row.OwnedBy(a)) then old(m.Now().row.reaction) else None
  {
    ClaimIsPast(m, a, event);
    var answer := m.store.Complete(m.id, a, None, Some(code), now);
    removed := if answer.Ended? then answer.reaction else None;
    NoteRelease(m, a, event, drain, code, now);
  }

  /** `retry`, or `failBeforeReply` when no reply has been fixed by this claim or an earlier one. */
  method GiveUp(m: Message, a: nat, event: Event, replyStarted: bool, drain: bool, code: string, now: Instant)
    returns (removed: Option<string>)
    requires At(m, a, event) && m.Now().now == now
    requires !Pc(m, a).Ended? && !Pc(m, a).Marking? && !Pc(m, a).Settling?
    requires replyStarted <==> event.replyAt.Some? || Pc(m, a).Sending? || Pc(m, a).Sent?
    modifies m, m.store.db
    ensures At(m, a, event) && Pc(m, a).Ended? && Silent(m)
    ensures removed.Some? ==> m.Now().handed == old(m.Now().handed) + [MP.Handed(MP.ByWorker(a), removed.value)]
    ensures removed.None? ==> m.Now().handed == old(m.Now().handed)
    ensures m.Now().row == if !old(m.Now().row.OwnedBy(a)) then old(m.Now().row)
                           else if replyStarted then Requeued(old(m.Now().row), a, drain, code, now)
                           else GivenUp(old(m.Now().row), a, drain, code, now)
    ensures removed == if old(m.Now().row.OwnedBy(a)) && !replyStarted && a >= 3 then old(m.Now().row.reaction) else None
  {
    removed := None;
    if replyStarted || a < 3 {
      PutBack(m, a, event, drain, code, now);
    } else {
      removed := EndUnanswered(m, a, event, drain, code, now);
    }
  }

  /** An error that nothing catches: the claim is left to its lease. */
  ghost method LoseClaim(m: Message, a: nat, event: Event)
    requires At(m, a, event)
    modifies m
    ensures At(m, a, event) && Pc(m, a).Ended? && Still(m)
  {
    m.Note(MP.Crash(a));
  }

  method FixReply(m: Message, a: nat, event: Event, text: string, kind: ReplyKind, now: Instant) returns (owned: bool)
    requires At(m, a, event) && m.Now().now == now && Pc(m, a) == MP.Marking(text, kind, now)
    modifies m, m.store.db
    ensures At(m, a, event) && Silent(m) && m.Now().handed == old(m.Now().handed) && owned == old(m.Now().row.OwnedBy(a))
    ensures m.Now().row == if owned then WithReply(old(m.Now().row), Reply(m.id, text, kind), now) else old(m.Now().row)
    ensures Pc(m, a) == if owned then MP.Sending(Reply(m.id, text, kind)) else MP.Ended
  {
    owned := m.store.MarkReplyStarted(m.id, a, m.id, now, text, kind, now);
    m.Note(MP.MarkReply(a));
  }

  /** The deadline passes while `markReplyStarted` is under way; it may still commit. */
  method AbandonMark(m: Message, a: nat, event: Event, text: string, kind: ReplyKind, late: bool, now: Instant)
    requires At(m, a, event) && m.Now().now == now && Pc(m, a) == MP.Marking(text, kind, now)
    modifies m, m.store.db
    ensures At(m, a, event) && Silent(m) && Pc(m, a).Abandoned? && m.Now().handed == old(m.Now().handed)
    ensures m.Now().row == if late && old(m.Now().row.OwnedBy(a)) then WithReply(old(m.Now().row), Reply(m.id, text, kind), now)
                           else old(m.Now().row)
  {
    m.Note(MP.AbandonMark(a));
    if late { LateMark(m, a, event, text, kind, now); }
  }

  method LateMark(m: Message, a: nat, event: Event, text: string, kind: ReplyKind, now: Instant)
    requires At(m, a, event) && m.Now().now == now
    requires m.Now().workers[a].late == Some(MP.LateMark(text, kind, now))
    modifies m, m.store.db
    ensures At(m, a, event) && Silent(m) && Pc(m, a) == old(Pc(m, a)) && m.Now().handed == old(m.Now().handed)
    ensures m.Now().row == if old(m.Now().row.OwnedBy(a)) then WithReply(old(m.Now().row), Reply(m.id, text, kind), now)
                           else old(m.Now().row)
  {
    var _ := m.store.MarkReplyStarted(m.id, a, m.id, now, text, kind, now);
    m.Note(MP.LateMarkArrives(a));
  }

  /** A write of the agent: marked before it is made. */
  method Write(m: Message, a: nat, event: Event, now: Instant) returns (written: bool)
    requires At(m, a, event) && m.Now().now == now && m.Now().workers[a].agentRan
    modifies m, m.store.db
    ensures At(m, a, event) && Silent(m) && Pc(m, a) == old(Pc(m, a)) && m.Now().workers[a].agentRan
    ensures m.Now().writes == old(m.Now().writes) + if written then [a] else []
    ensures written == old(m.Now().row.OwnedBy(a)) && m.Now().handed == old(m.Now().handed)
    ensures m.Now().row == if written then Written(old(m.Now().row), 1, now) else old(m.Now().row)
  {
    written := m.store.BeginWrite(m.id, a, now);
    m.Note(MP.BeginWrite(a, now));
    if written { m.Note(MP.PerformWrite(a)); }
  }

  ghost method NoteProgress(m: Message, a: nat, event: Event, inner: P.Step)
    requires At(m, a, event) && P.Enabled(m.Now().workers[a].progress, inner)
    requires !inner.MarkerAnswers? && !inner.TimerFires?
    modifies m
    ensures At(m, a, event) && Still(m) && Pc(m, a) == old(Pc(m, a))
    ensures m.Now().workers[a].progress == P.After(old(m.Now().workers[a].progress), inner)
  {
    m.Note(MP.Progress(a, inner, m.Now().now));
  }

  // ---------- the worker ----------

  /** What one claim may do to the outside: fix and send at most one reply, run the agent at
    * most once, and that only for a message that has neither a write nor a reply. */
  ghost predicate Modest(before: MP.System, after: MP.System, a: nat, event: Event, reply: Option<Reply>) {
    && (reply.None? ==> after.sends == before.sends)
    && (reply.Some? ==> after.sends == before.sends + [MP.Send(a, reply.value)])
    && (after.agentRuns == before.agentRuns
        || (after.agentRuns == before.agentRuns + [a]
            && !event.unsupported && event.writeStartedAt.None? && event.replyAt.None?))
  }

  method RunAgent(m: Message, a: nat, event: Event, writes: nat, ms: nat, now: Instant) returns (later: Instant)
    requires At(m, a, event) && m.Now().now == now
    requires Pc(m, a).AgentRunning? && m.Now().workers[a].agentRan
    modifies m, m.store.db
    ensures At(m, a, event) && m.Now().now == later && Continues(m) && Pc(m, a).AgentRunning?
    ensures m.Now().sends == old(m.Now().sends) && m.Now().agentRuns == old(m.Now().agentRuns)
    ensures later == now + ms && m.Now().handed == old(m.Now().handed)
    ensures m.Now().row == if old(m.Now().row.OwnedBy(a)) then Written(old(m.Now().row), writes, now) else old(m.Now().row)
    ensures |m.Now().writes| == |old(m.Now().writes)| + if old(m.Now().row.OwnedBy(a)) then writes else 0
  {
    for i := 0 to writes
      invariant At(m, a, event) && Silent(m) && Pc(m, a).AgentRunning? && m.Now().workers[a].agentRan
      invariant m.Now().handed == old(m.Now().handed)
      invariant m.Now().row == if old(m.Now().row.OwnedBy(a)) then Written(old(m.Now().row), i, now) else old(m.Now().row)
      invariant |m.Now().writes| == |old(m.Now().writes)| + if old(m.Now().row.OwnedBy(a)) then i else 0
    {
      var _ := Write(m, a, event, now);
    }
    later := now + ms;
    m.Note(MP.Tick(ms));
  }

  /** `settle` of the progress reply, run to its end before the reply is fixed. */
  method SettleProgress(m: Message, a: nat, event: Event)
    requires At(m, a, event) && JustAsked(m, a)
    modifies m
    ensures At(m, a, event) && Still(m)
    ensures Pc(m, a) == MP.Marking(old(Pc(m, a).text), old(Pc(m, a).kind), m.Now().now)
    ensures !m.Now().workers[a].progress.delivery.Sending?
  {
    ghost var call := Pc(m, a).call;
    NoteProgress(m, a, event, P.SettleTicks(call));
    if m.Now().workers[a].progress.delivery.Sending? { NoteProgress(m, a, event, P.DeliveryEnds); }
    NoteProgress(m, a, event, P.SettleReturns(call));
    m.Note(MP.Settle(a));
  }

  /** The claim has a reply to fix and has just called `settle`. */
  ghost predicate JustAsked(m: Message, a: nat)
    requires m.states != [] && a in m.Now().workers
    reads m
  {
    && Pc(m, a).Settling?
    && Pc(m, a).call < |m.Now().workers[a].progress.calls|
    && m.Now().workers[a].progress.calls[Pc(m, a).call].Called?
  }

  datatype Prepared = Fixed(reply: Reply) | Over(ending: Ending, removed: Option<string>)

  function RemovedBy(prepared: Prepared): Option<string> { if prepared.Over? then prepared.removed else None }

  /** `persistPreparedReply`: the reply is fixed before it is sent. */
  method Persist(m: Message, a: nat, event: Event, text: string, kind: ReplyKind, answer: MarkAnswer, now: Instant)
    returns (prepared: Prepared)
    requires At(m, a, event) && m.Now().now == now && event.replyAt.None?
    requires JustAsked(m, a) && Pc(m, a).text == text && Pc(m, a).kind == kind
    modifies m, m.store.db
    ensures At(m, a, event) && Silent(m)
    ensures prepared.Fixed? ==> prepared.reply == Reply(m.id, text, kind) && Pc(m, a) == MP.Sending(prepared.reply)
    ensures prepared.Over? ==> Pc(m, a).Ended?
    ensures prepared.Fixed? <==> answer.Marked? && old(m.Now().row.OwnedBy(a))
    ensures prepared.Over? ==> prepared.ending == if answer.MarkTimesOut? then Deadline else Threw
    ensures var row, reply := old(m.Now().row), Reply(m.id, text, kind);
            m.Now().row == if !row.OwnedBy(a) || answer.MarkFails? then row
                           else if answer.Marked? then WithReply(row, reply, now)
                           else GivenUp(if answer.late then WithReply(row, reply, now) else row, a, true,
                                        "processing_deadline_exceeded", now)
    ensures HandsOver(old(m.Now()), m.Now(), a, RemovedBy(prepared))
    ensures Removes(old(m.Now().row), m.Now().row, a, RemovedBy(prepared))
  {
    SettleProgress(m, a, event);
    match answer
    case Marked =>
      var owned := FixReply(m, a, event, text, kind, now);
      prepared := if owned then Fixed(Reply(m.id, text, kind)) else Over(Threw, None);
    case MarkFails =>
      LoseClaim(m, a, event);
      prepared := Over(Threw, None);
    case MarkTimesOut(late) =>
      AbandonMark(m, a, event, text, kind, late, now);
      var removed := GiveUp(m, a, event, false, true, "processing_deadline_exceeded", now);
      prepared := Over(Deadline, removed);
  }

  /** Decides on a reply that needs no agent. */
  ghost method NoteReply(m: Message, a: nat, event: Event, text: string)
    requires At(m, a, event) && Pc(m, a).Composing? && (event.unsupported || event.writeStartedAt.Some?)
    modifies m
    ensures At(m, a, event) && Still(m) && JustAsked(m, a) && Pc(m, a).text == text
    ensures Pc(m, a).kind == if event.unsupported then Control else Rich
  {
    m.Note(MP.Compose(a, text));
  }

  ghost method NoteAgent(m: Message, a: nat, event: Event)
    requires At(m, a, event) && Pc(m, a).Composing? && !event.unsupported && event.writeStartedAt.None?
    modifies m
    ensures At(m, a, event) && Continues(m) && Pc(m, a).AgentRunning? && m.Now().workers[a].agentRan
    ensures m.Now().sends == old(m.Now().sends) && m.Now().agentRuns == old(m.Now().agentRuns) + [a]
    ensures m.Now().now == old(m.Now().now)
    ensures m.Now().row == old(m.Now().row) && m.Now().handed == old(m.Now().handed)
  {
    m.Note(MP.Compose(a, ""));
  }

  ghost method NoteAgentReply(m: Message, a: nat, event: Event, text: string)
    requires At(m, a, event) && Pc(m, a).AgentRunning?
    modifies m
    ensures At(m, a, event) && Still(m) && JustAsked(m, a) && Pc(m, a).text == text && Pc(m, a).kind == Rich
  {
    m.Note(MP.AgentReplies(a, text));
  }

  /** The agent failed: try again, or apologise when the attempts are used up. */
  method AgentFailed(m: Message, a: nat, event: Event, now: Instant) returns (again: bool)
    requires At(m, a, event) && Pc(m, a).AgentRunning? && m.Now().now == now
    modifies m, m.store.db
    ensures At(m, a, event) && Silent(m) && (again <==> a < 3)
    ensures if again then Pc(m, a).Ended?
            else JustAsked(m, a) && Pc(m, a).text == TEMPORARY && Pc(m, a).kind == Control
    ensures m.Now().handed == old(m.Now().handed)
    ensures m.Now().row == if again && old(m.Now().row.OwnedBy(a))
                           then Requeued(old(m.Now().row), a, false, "agent_failed", now) else old(m.Now().row)
  {
    BackoffIsPause(a);
    ClaimIsPast(m, a, event);
    again := a < 3;
    if again {
      var _ := m.store.Retry(m.id, a, "agent_failed", MP.NextAttemptAt(now, a, 0), now);
    }
    m.Note(MP.AgentFails(a, TEMPORARY, now, now));
  }

  /** The reply is what was composed, and it is fixed exactly if the claim owns the row and the
    * call that fixes it comes back in time. */
  ghost predicate Prepares(id: EventId, before: Event, after: Event, event: Event, world: World, a: nat, prepared: Prepared,
                           now: Instant, later: Instant)
    requires a >= 1
  {
    var composed := Composed(event, world, a);
    var row := if RunsAgent(event) then Written(before, world.agentWrites, now) else before;
    && (prepared.Fixed? <==> before.OwnedBy(a) && composed.Some? && world.mark.Marked?)
    && (prepared.Fixed? ==> prepared.reply == Reply(id, composed.value.0, composed.value.1))
    && (prepared.Over? ==> prepared.ending == EndingUnsent(event, world, a))
    && after == if !before.OwnedBy(a) then before
                else if prepared.Fixed? then WithReply(row, prepared.reply, later)
                else Unanswered(row, event, world, a, id, later)
  }

  /** `prepareReply`, up to the agent. */
  method Prepare(m: Message, a: nat, event: Event, world: World, now: Instant) returns (prepared: Prepared, later: Instant)
    requires At(m, a, event) && m.Now().now == now && event.replyAt.None? && Pc(m, a).Composing?
    modifies m, m.store.db
    ensures At(m, a, event) && Continues(m) && m.Now().now == later
    ensures Modest(old(m.Now()), m.Now(), a, event, None)
    ensures prepared.Fixed? ==> prepared.reply.key == m.id && Pc(m, a) == MP.Sending(prepared.reply)
    ensures prepared.Over? ==> Pc(m, a).Ended?
    ensures later == now + if RunsAgent(event) then world.agentMs else 0
    ensures m.Now().agentRuns == old(m.Now().agentRuns) + if RunsAgent(event) then [a] else []
    ensures HandsOver(old(m.Now()), m.Now(), a, RemovedBy(prepared))
    ensures Removes(old(m.Now().row), m.Now().row, a, RemovedBy(prepared))
    ensures Prepares(m.id, old(m.Now().row), m.Now().row, event, world, a, prepared, now, later)
  {
    later := now;
    if event.unsupported {
      NoteReply(m, a, event, UNSUPPORTED);
      prepared := Persist(m, a, event, UNSUPPORTED, Control, world.mark, now);
    } else if event.writeStartedAt.Some? {
      prepared := AfterWrite(m, a, event, world, now);
    } else {
      NoteAgent(m, a, event);
      later := RunAgent(m, a, event, world.agentWrites, world.agentMs, now);
      prepared := AfterAgent(m, a, event, world, later);
    }
  }

  /** A claim that finds a write reports the attempts instead of running the agent. */
  method AfterWrite(m: Message, a: nat, event: Event, world: World, now: Instant) returns (prepared: Prepared)
    requires At(m, a, event) && m.Now().now == now && event.replyAt.None? && Pc(m, a).Composing?
    requires !event.unsupported && event.writeStartedAt.Some?
    modifies m, m.store.db
    ensures At(m, a, event) && Silent(m)
    ensures prepared.Fixed? ==> prepared.reply.key == m.id && Pc(m, a) == MP.Sending(prepared.reply)
    ensures prepared.Over? ==> Pc(m, a).Ended?
    ensures HandsOver(old(m.Now()), m.Now(), a, RemovedBy(prepared))
    ensures Removes(old(m.Now().row), m.Now().row, a, RemovedBy(prepared))
    ensures Prepares(m.id, old(m.Now().row), m.Now().row, event, world, a, prepared, now, now)
  {
    match world.attempts
    case TextFails =>
      LoseClaim(m, a, event);
      prepared := Over(Threw, None);
    case TextTimesOut =>
      var removed := GiveUp(m, a, event, false, true, "processing_deadline_exceeded", now);
      prepared := Over(Deadline, removed);
    case Text(text) =>
      NoteReply(m, a, event, text);
      prepared := Persist(m, a, event, text, Rich, world.mark, now);
  }

  method AfterAgent(m: Message, a: nat, event: Event, world: World, now: Instant) returns (prepared: Prepared)
    requires At(m, a, event) && m.Now().now == now && event.replyAt.None? && Pc(m, a).AgentRunning? && RunsAgent(event)
    modifies m, m.store.db
    ensures At(m, a, event) && Silent(m)
    ensures prepared.Fixed? ==> prepared.reply.key == m.id && Pc(m, a) == MP.Sending(prepared.reply)
    ensures prepared.Over? ==> Pc(m, a).Ended?
    ensures HandsOver(old(m.Now()), m.Now(), a, RemovedBy(prepared))
    ensures Removes(old(m.Now().row), m.Now().row, a, RemovedBy(prepared))
    ensures var row, composed := old(m.Now().row), Composed(event, world, a);
            && (prepared.Fixed? <==> row.OwnedBy(a) && composed.Some? && world.mark.Marked?)
            && (prepared.Fixed? ==> prepared.reply == Reply(m.id, composed.value.0, composed.value.1))
            && (prepared.Over? ==> prepared.ending == EndingUnsent(event, world, a))
            && m.Now().row == if !row.OwnedBy(a) then row
                              else if prepared.Fixed? then WithReply(row, prepared.reply, now)
                              else Unanswered(row, event, world, a, m.id, now)
  {
    match world.agent
    case TextTimesOut =>
      var removed := GiveUp(m, a, event, false, true, "processing_deadline_exceeded", now);
      prepared := Over(Deadline, removed);
    case TextFails =>
      var again := AgentFailed(m, a, event, now);
      if again { return Over(Ending.Ended, None); }
      prepared := Persist(m, a, event, TEMPORARY, Control, world.mark, now);
    case Text(text) =>
      NoteAgentReply(m, a, event, text);
      prepared := Persist(m, a, event, text, Rich, world.mark, now);
  }

  /** The fixed reply is less than an hour old and complete. */
  predicate Recoverable(event: Event, now: Instant) {
    && event.replyAt.Some? && now < event.replyAt.value + 3_600_000 && event.replyKey.Some?
    && event.outcome.Some? && event.outcome.value.kind.Some?
    && event.outcome.value.text.Some? && event.outcome.value.text.value != ""
  }

  /** A claim that finds a fixed reply either takes it over or ends the message as uncertain. */
  method Recover(m: Message, a: nat, event: Event, now: Instant) returns (reply: Option<Reply>, removed: Option<string>)
    requires At(m, a, event) && m.Now().now == now && Pc(m, a).Starting? && event.replyAt.Some?
    modifies m, m.store.db
    ensures At(m, a, event) && Silent(m)
    ensures reply == MP.Recovered(event, now) && (reply.Some? <==> Recoverable(event, now))
    ensures reply.Some? ==> reply.value == Reply(event.replyKey.value, event.outcome.value.text.value, event.outcome.value.kind.value)
    ensures m.Now().row == if reply.Some? || !old(m.Now().row.OwnedBy(a)) then old(m.Now().row)
                           else old(m.Now().row).(status := EventStatus.Failed, leasedUntil := None, reaction := None,
                                                  outcome := Some(Outcome(None, Some("reply_uncertain"), None, None)))
    ensures HandsOver(old(m.Now()), m.Now(), a, removed) && Removes(old(m.Now().row), m.Now().row, a, removed)
    ensures Pc(m, a) == if reply.Some? then MP.Sending(reply.value) else MP.Ended
  {
    reply := MP.Recovered(event, now);
    removed := None;
    if reply.None? {
      var answer := m.store.MarkReplyUncertain(m.id, a, now);
      if answer.Ended? { removed := answer.reaction; }
    }
    m.Note(MP.Inspect(a));
  }

  ghost method NoteFresh(m: Message, a: nat, event: Event)
    requires At(m, a, event) && Pc(m, a).Starting? && event.replyAt.None?
    modifies m
    ensures At(m, a, event) && Still(m) && Pc(m, a).Composing?
  {
    m.Note(MP.Inspect(a));
  }

  ghost method NoteSend(m: Message, a: nat, event: Event, reply: Reply)
    requires At(m, a, event) && Pc(m, a) == MP.Sending(reply)
    modifies m
    ensures At(m, a, event) && Continues(m) && Pc(m, a) == MP.Sent(reply) && m.Now().now == old(m.Now().now)
    ensures m.Now().sends == old(m.Now().sends) + [MP.Send(a, reply)] && m.Now().agentRuns == old(m.Now().agentRuns)
    ensures m.Now().row == old(m.Now().row) && m.Now().handed == old(m.Now().handed)
  {
    m.Note(MP.SendReply(a));
  }

  method CompleteWith(m: Message, a: nat, event: Event, message: string, now: Instant) returns (removed: Option<string>)
    requires At(m, a, event) && m.Now().now == now && Pc(m, a).Sent?
    modifies m, m.store.db
    ensures At(m, a, event) && Silent(m) && Pc(m, a).Ended?
    ensures m.Now().row == if !old(m.Now().row.OwnedBy(a)) then old(m.Now().row)
                           else old(m.Now().row).(status := EventStatus.Completed, leasedUntil := None, reaction := None,
                                                  outcome := Some(Outcome(Some(message), None, None, None)))
    ensures HandsOver(old(m.Now()), m.Now(), a, removed) && Removes(old(m.Now().row), m.Now().row, a, removed)
  {
    var answer := m.store.Complete(m.id, a, Some(message), None, now);
    removed := if answer.Ended? then answer.reaction else None;
    m.Note(MP.Delivered(a, message));
  }

  /** Sends a fixed reply and ends the claim; returns the reaction to remove. */
  method Deliver(m: Message, a: nat, event: Event, reply: Reply, world: World, now: Instant)
    returns (ending: Ending, removed: Option<string>)
    requires At(m, a, event) && m.Now().now == now && Pc(m, a) == MP.Sending(reply)
    modifies m, m.store.db
    ensures At(m, a, event) && Continues(m) && Pc(m, a).Ended? && m.Now().now == now
    ensures m.Now().sends == old(m.Now().sends) + [MP.Send(a, reply)] && m.Now().agentRuns == old(m.Now().agentRuns)
    ensures m.Now().row == if old(m.Now().row.OwnedBy(a)) then Delivered(old(m.Now().row), reply, world, a, now)
                           else old(m.Now().row)
    ensures HandsOver(old(m.Now()), m.Now(), a, removed) && Removes(old(m.Now().row), m.Now().row, a, removed)
    ensures ending.Ended? && old(m.Now().row.OwnedBy(a)) && world.delivery.Arrives? ==> m.Now().row.status.Completed?
    ensures ending == EndingSent(reply, world)
  {
    NoteSend(m, a, event, reply);
    ending, removed := Ending.Ended, None;
    match world.delivery
    case Rejected => removed := GiveUp(m, a, event, true, false, "reply_failed", now);
    case DeliveryTimesOut =>
      removed := GiveUp(m, a, event, true, true, "processing_deadline_exceeded", now);
      ending := Deadline;
    case Arrives(message) =>
      if message == "" || reply.text == "" || world.appended.Fails? {
        LoseClaim(m, a, event);
        ending := Threw;
      } else if world.appended.TimesOut? {
        removed := GiveUp(m, a, event, true, true, "processing_deadline_exceeded", now);
        ending := Deadline;
      } else {
        removed := CompleteWith(m, a, event, message, now);
      }
  }

  /** The row at the end of the claim that owns it, by what the world answered. */
  function Processed(id: EventId, row: Event, event: Event, world: World, a: nat, reply: Option<Reply>, now: Instant): Event
    requires a >= 1
  {
    if event.replyAt.Some? then
      if !Recoverable(event, now) then
        row.(status := EventStatus.Failed, leasedUntil := None, reaction := None,
        outcome := Some(Outcome(None, Some("reply_uncertain"), None, None)))
      else if reply.None? then Requeued(row, a, world.stored.TimesOut?, "conversation_store_failed", now)
      else Delivered(row, reply.value, world, a, now)
    else if world.stored.Fails? then GivenUp(row, a, false, "conversation_store_failed", now)
    else if world.stored.TimesOut? then GivenUp(row, a, true, "processing_deadline_exceeded", now)
    else
      var worked := if RunsAgent(event) then Written(row, world.agentWrites, now) else row;
      var later := if RunsAgent(event) then now + world.agentMs else now;
      if reply.None? then Unanswered(worked, event, world, a, id, later)
      else Delivered(WithReply(worked, reply.value, later), reply.value, world, a, later)
  }

  method ProcessAgain(m: Message, a: nat, event: Event, world: World, now: Instant)
    returns (ending: Ending, reply: Option<Reply>, removed: Option<string>)
    requires At(m, a, event) && m.Now().now == now && Pc(m, a).Starting? && event.replyAt.Some?
    modifies m, m.store.db
    ensures At(m, a, event) && Continues(m) && Pc(m, a).Ended?
    ensures Modest(old(m.Now()), m.Now(), a, event, reply)
    ensures m.Now().row == if old(m.Now().row.OwnedBy(a)) then Processed(m.id, old(m.Now().row), event, world, a, reply, now)
                           else old(m.Now().row)
    ensures HandsOver(old(m.Now()), m.Now(), a, removed) && Removes(old(m.Now().row), m.Now().row, a, removed)
    ensures ending == if reply.Some? then EndingSent(reply.value, world)
                      else if event.replyAt.None? && world.stored.Fine? then EndingUnsent(event, world, a)
                      else Ending.Ended
    ensures reply == if world.stored.Fine? then MP.Recovered(event, now) else None
    ensures reply.Some? <==> world.stored.Fine? && Recoverable(event, now)
    ensures reply.Some? ==> reply.value == Reply(event.replyKey.value, event.outcome.value.text.value, event.outcome.value.kind.value)
    ensures m.Now().agentRuns == old(m.Now().agentRuns)
  {
    var found;
    found, removed := Recover(m, a, event, now);
    if found.None? { return Ending.Ended, None, removed; }
    if !world.stored.Fine? {
      removed := GiveUp(m, a, event, true, world.stored.TimesOut?, "conversation_store_failed", now);
      return Ending.Ended, None, removed;
    }
    reply := found;
    ending, removed := Deliver(m, a, event, found.value, world, now);
  }

  method ProcessFresh(m: Message, a: nat, event: Event, world: World, now: Instant)
    returns (ending: Ending, reply: Option<Reply>, removed: Option<string>)
    requires At(m, a, event) && m.Now().now == now && Pc(m, a).Starting? && event.replyAt.None?
    modifies m, m.store.db
    ensures At(m, a, event) && Continues(m) && Pc(m, a).Ended?
    ensures Modest(old(m.Now()), m.Now(), a, event, reply)
    ensures m.Now().row == if old(m.Now().row.OwnedBy(a)) then Processed(m.id, old(m.Now().row), event, world, a, reply, now)
                           else old(m.Now().row)
    ensures HandsOver(old(m.Now()), m.Now(), a, removed) && Removes(old(m.Now().row), m.Now().row, a, removed)
    ensures ending == if reply.Some? then EndingSent(reply.value, world)
                      else if event.replyAt.None? && world.stored.Fine? then EndingUnsent(event, world, a)
                      else Ending.Ended
    ensures reply.Some? <==>
              world.stored.Fine? && world.mark.Marked? && old(m.Now().row.OwnedBy(a)) && Composed(event, world, a).Some?
    ensures reply.Some? ==> reply.value == Reply(m.id, Composed(event, world, a).value.0, Composed(event, world, a).value.1)
    ensures m.Now().agentRuns == old(m.Now().agentRuns) + if world.stored.Fine? && RunsAgent(event) then [a] else []
  {
    NoteFresh(m, a, event);
    if !world.stored.Fine? {
      var late := world.stored.TimesOut?;
      var code := if late then "processing_deadline_exceeded" else "conversation_store_failed";
      removed := GiveUp(m, a, event, false, late, code, now);
      return Ending.Ended, None, removed;
    }
    ending, reply, removed := AnswerFresh(m, a, event, world, now);
  }

  /** Prepares a reply, and sends it if there is one. */
  method AnswerFresh(m: Message, a: nat, event: Event, world: World, now: Instant)
    returns (ending: Ending, reply: Option<Reply>, removed: Option<string>)
    requires At(m, a, event) && m.Now().now == now && Pc(m, a).Composing? && event.replyAt.None? && world.stored.Fine?
    modifies m, m.store.db
    ensures At(m, a, event) && Continues(m) && Pc(m, a).Ended?
    ensures Modest(old(m.Now()), m.Now(), a, event, reply)
    ensures m.Now().row == if old(m.Now().row.OwnedBy(a)) then Processed(m.id, old(m.Now().row), event, world, a, reply, now)
                           else old(m.Now().row)
    ensures HandsOver(old(m.Now()), m.Now(), a, removed) && Removes(old(m.Now().row), m.Now().row, a, removed)
    ensures ending == if reply.Some? then EndingSent(reply.value, world)
                      else if event.replyAt.None? && world.stored.Fine? then EndingUnsent(event, world, a)
                      else Ending.Ended
    ensures reply.Some? <==> world.mark.Marked? && old(m.Now().row.OwnedBy(a)) && Composed(event, world, a).Some?
    ensures reply.Some? ==> reply.value == Reply(m.id, Composed(event, world, a).value.0, Composed(event, world, a).value.1)
    ensures m.Now().agentRuns == old(m.Now().agentRuns) + if RunsAgent(event) then [a] else []
  {
    var prepared, later := Prepare(m, a, event, world, now);
    if prepared.Over? { return prepared.ending, None, prepared.removed; }
    reply := Some(prepared.reply);
    ending, removed := Deliver(m, a, event, prepared.reply, world, later);
  }

  /** `process`: one claim from its first look at the event to its end. The claim is over
    * afterwards, its history is still a run of the protocol, at most one reply was sent,
    * and that one was fixed before: in the row as it was read or by this claim. */
  method Process(m: Message, a: nat, event: Event, world: World, now: Instant)
    returns (ending: Ending, reply: Option<Reply>, removed: Option<string>)
    requires At(m, a, event) && m.Now().now == now && Pc(m, a).Starting?
    modifies m, m.store.db
    ensures At(m, a, event) && Continues(m) && Pc(m, a).Ended?
    ensures Modest(old(m.Now()), m.Now(), a, event, reply)
    ensures event.replyAt.Some? && reply.Some? ==> reply == MP.Recovered(event, now)
    ensures event.replyAt.None? && reply.Some? ==> reply.value.key == m.id
    // a reply that was fixed before: when it is sent again, and what it says
    ensures event.replyAt.Some? ==> (reply.Some? <==> world.stored.Fine? && Recoverable(event, now))
    ensures event.replyAt.Some? && reply.Some? ==>
              reply.value == Reply(event.replyKey.value, event.outcome.value.text.value, event.outcome.value.kind.value)
    // a fresh one: when there is one, and what it says
    ensures event.replyAt.None? ==>
              (reply.Some? <==>
                 && world.stored.Fine? && world.mark.Marked? && old(m.Now().row.OwnedBy(a))
                 && (|| event.unsupported
                     || (event.writeStartedAt.Some? && world.attempts.Text?)
                     || (event.writeStartedAt.None? && (world.agent.Text? || (world.agent.TextFails? && a >= 3)))))
    ensures event.replyAt.None? && reply.Some? && event.unsupported ==> reply.value == Reply(m.id, UNSUPPORTED, Control)
    ensures event.replyAt.None? && reply.Some? && !event.unsupported && event.writeStartedAt.Some? ==>
              world.attempts.Text? && reply.value == Reply(m.id, world.attempts.text, Rich)
    ensures event.replyAt.None? && reply.Some? && !event.unsupported && event.writeStartedAt.None? && world.agent.Text? ==>
              reply.value == Reply(m.id, world.agent.text, Rich)
    ensures event.replyAt.None? && reply.Some? && !event.unsupported && event.writeStartedAt.None? && !world.agent.Text? ==>
              reply.value == Reply(m.id, TEMPORARY, Control)
    // whether the agent runs, and what becomes of the row and of its reaction
    ensures m.Now().agentRuns == old(m.Now().agentRuns)
            + if event.replyAt.None? && world.stored.Fine? && !event.unsupported && event.writeStartedAt.None? then [a] else []
    ensures m.Now().row == if old(m.Now().row.OwnedBy(a)) then Processed(m.id, old(m.Now().row), event, world, a, reply, now)
                           else old(m.Now().row)
    ensures HandsOver(old(m.Now()), m.Now(), a, removed) && Removes(old(m.Now().row), m.Now().row, a, removed)
    ensures ending == if reply.Some? then EndingSent(reply.value, world)
                      else if event.replyAt.None? && world.stored.Fine? then EndingUnsent(event, world, a)
                      else Ending.Ended
  {
    if event.replyAt.Some? {
      ending, reply, removed := ProcessAgain(m, a, event, world, now);
    } else {
      ending, reply, removed := ProcessFresh(m, a, event, world, now);
    }
  }

  ghost method NoteClaim(m: Message, computedAt: Instant)
    requires MP.IsRun(m.states, m.steps) && m.id in m.store.db.events && m.Now().id == m.id
    requires MP.Enabled(m.Now(), MP.Claim(computedAt))
    requires m.store.db.events[m.id] == EventRows.Claim(m.Now().row, computedAt + MP.LEASE)
    modifies m
    ensures m.Valid() && Continues(m) && m.Now().now == old(m.Now().now)
    ensures m.Now().sends == old(m.Now().sends) && m.Now().agentRuns == old(m.Now().agentRuns)
    ensures var row := m.store.db.events[m.id]; At(m, row.attempts, row) && Pc(m, row.attempts).Starting?
  {
    m.Note(MP.Claim(computedAt));
  }

  /** A slot is free, and of the unlocked messages that wait for nothing this one is the first. */
  ghost predicate FirstAdmissible(db: Tables.Db, id: EventId, now: Instant, locked: set<EventId>) {
    && Working(db) < 4 && Admissible(db, id, now) && id !in locked
    && forall other :: Admissible(db, other, now) && other !in locked && other != id ==> Earlier(db.events, id, other)
  }

  /** `claimReady(1)`; whether it took this message. */
  method ClaimOne(m: Message, computedAt: Instant, now: Instant, locked: set<EventId>) returns (claimed: bool)
    requires m.Valid() && m.Now().now == now && computedAt <= now
    modifies m, m.store.db
    ensures m.Valid() && Continues(m) && m.Now().now == now
    ensures m.Now().sends == old(m.Now().sends) && m.Now().agentRuns == old(m.Now().agentRuns)
    ensures claimed ==>
              && Tables.Claimable(old(m.store.db.Contents()), m.id, now)
              && Admissible(old(m.store.db.Contents()), m.id, now) && m.id !in locked
              && m.Now().row == EventRows.Claim(old(m.Now().row), computedAt + MP.LEASE)
              && At(m, m.Now().row.attempts, m.Now().row) && Pc(m, m.Now().row.attempts).Starting?
    ensures !claimed ==> m.states == old(m.states) && m.Now().row == old(m.Now().row)
    ensures FirstAdmissible(old(m.store.db.Contents()), m.id, now, locked) ==> claimed
  {
    ghost var was := m.store.db.Contents();
    var batch := m.store.ClaimReady(1, computedAt + MP.LEASE, now, locked);
    claimed := batch == [m.id];
    BatchOfOne(was, batch, m.id, now, computedAt + MP.LEASE, locked);
    assert claimed ==> m.id in batch;
    assert batch != [] ==> batch[0] in batch;
    if claimed { NoteClaim(m, computedAt); }
  }

  /** `processNext`: claims the first ready event and, when that is this message, processes it. */
  method ProcessNext(m: Message, computedAt: Instant, world: World, now: Instant, locked: set<EventId>)
    returns (claimed: bool, reply: Option<Reply>)
    requires m.Valid() && m.Now().now == now && computedAt <= now
    modifies m, m.store.db
    ensures m.Valid() && Continues(m)
    ensures claimed ==>
              var row := EventRows.Claim(old(m.Now().row), computedAt + MP.LEASE);
              && Tables.Claimable(old(m.store.db.Contents()), m.id, now)
              && Admissible(old(m.store.db.Contents()), m.id, now) && m.id !in locked
              && At(m, row.attempts, row) && Pc(m, row.attempts).Ended?
              && Modest(old(m.Now()), m.Now(), row.attempts, row, reply)
    ensures !claimed ==> m.states == old(m.states) && m.Now().row == old(m.Now().row) && reply.None?
    ensures FirstAdmissible(old(m.store.db.Contents()), m.id, now, locked) ==> claimed
  {
    claimed := ClaimOne(m, computedAt, now, locked);
    reply := None;
    if claimed {
      var event := m.store.db.events[m.id];
      var _, sent, _ := Process(m, event.attempts, event, world, now);
      reply := sent;
    }
  }

  lemma BatchOfOne(was: Tables.Db, batch: seq<EventId>, id: EventId, now: Instant, leaseUntil: Instant, locked: set<EventId>)
    requires id in was.events && |batch| <= 1
    requires Picked(was.events, batch, Ready(was, now, locked))
    ensures var after := Tables.ClaimRows(was, Ids(batch), leaseUntil);
            && id in after.events
            && if batch == [id]
               then Tables.Claimable(was, id, now) && after.events[id] == EventRows.Claim(was.events[id], leaseUntil)
               else after.events[id] == was.events[id]
  {
    DistinctIds(was.events, batch);
    if batch == [id] { assert id in Ids(batch); }
  }

  /** What the message protocol promises, read off the history of the code: one reply at
    * most reaches the user, every send repeats it, one progress message at most, and all
    * writes come from one claim. */
  lemma CodeIsSafe(m: Message)
    requires m.Valid()
    ensures |MessageTheorems.Delivered(m.Now().sends)| <= 1 && |m.Now().marks| <= 1 && |m.Now().progressSends| <= 1
    ensures forall x, y :: 0 <= x < |m.Now().sends| && 0 <= y < |m.Now().sends|
                           ==> m.Now().sends[x].reply == m.Now().sends[y].reply
    ensures forall x, y :: 0 <= x < |m.Now().writes| && 0 <= y < |m.Now().writes|
                           ==> m.Now().writes[x] == m.Now().writes[y]
  {
    var last := |m.states| - 1;
    MessageTheorems.RepliesOnce(m.states, m.steps, last);
    MessageTheorems.ProgressOnceAndBeforeReply(m.states, m.steps, last);
    forall x, y | 0 <= x < |m.Now().writes| && 0 <= y < |m.Now().writes|
      ensures m.Now().writes[x] == m.Now().writes[y]
    {
      MessageTheorems.WritesComeFromOneClaim(m.states, m.steps, last, x, y);
    }
  }

  // ---------- the gateway ----------

  /** The tail of `handle`: a new message is stored and reacted to; a duplicate is left alone. */
  method Handle(store: EventStore, id: EventId, conversation: ChatId, unsupported: bool, reaction: Option<string>, now: Instant)
    returns (message: Option<Message>, removed: Option<string>)
    modifies store.db
    ensures message.None? <==> id in old(store.db.events)
    ensures message.None? ==> store.db.Contents() == old(store.db.Contents()) && removed.None?
    ensures message.Some? ==>
              var m := message.value;
              && fresh(m) && m.Valid() && m.store == store && m.id == id
              && m.Now().added == reaction && m.Now().row.reaction == reaction && removed.None?
              && id in store.db.events
              && store.db.events == old(store.db.events)[id :=
                   Event(conversation, unsupported, now, EventStatus.Queued, 0, now, None, reaction, None, None, None, None,
                         None, None)]
  {
    removed := None;
    var queued := store.Enqueue(id, conversation, unsupported, now);
    if !queued { return None, None; }
    var m := new Message(store, id, conversation, unsupported, now);
    if reaction.Some? {
      NoteReaction(m, reaction.value);
      removed := Attach(m, reaction.value, now);
    }
    message := Some(m);
  }

  ghost method NoteReaction(m: Message, reaction: string)
    requires m.Valid() && m.Now().gateway.Idle?
    modifies m
    ensures m.Valid() && Continues(m) && m.Now().gateway == MP.Holding(reaction) && m.Now().added == Some(reaction)
    ensures m.Now().row == old(m.Now().row) && m.Now().now == old(m.Now().now)
  {
    m.Note(MP.AddReaction(reaction));
  }

  /** Attaches a reaction that the gateway still holds, in whatever state other code has
    * brought the message to meanwhile, and takes it back exactly when the row does not take
    * it: because the message has ended, or has a reaction already. */
  method Attach(m: Message, reaction: string, now: Instant) returns (removed: Option<string>)
    requires m.Valid() && m.Now().now == now && m.Now().gateway == MP.Holding(reaction)
    modifies m, m.store.db
    ensures m.Valid() && Continues(m) && m.Now().gateway.Settled? && m.Now().now == now
    ensures m.Now().added == old(m.Now().added)
    ensures m.store.db.events == old(m.store.db.events)[m.id := m.Now().row]
    ensures removed.None? <==> old(m.Now().row.Active() && m.Now().row.reaction.None?)
    ensures removed.None? ==> m.Now().row == old(m.Now().row).(reaction := Some(reaction)) && m.Now().handed == old(m.Now().handed)
    ensures removed.Some? ==>
              && removed.value == reaction && m.Now().row == old(m.Now().row)
              && m.Now().handed == old(m.Now().handed) + [MP.Handed(MP.ByGateway, reaction)]
  {
    var attached := m.store.AttachProcessingReaction(m.id, reaction, now);
    m.Note(MP.AttachReaction);
    removed := if attached then None else Some(reaction);
  }
}

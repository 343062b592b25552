/** What holds in every reachable state of one message: its writes, its reply, its
  * progress message and its reaction. */
module MessageSafety {
  import opened Records
  import opened MessageProtocol
  import EventRows
  import P = ProgressReply

  // ---------- the invariants ----------

  ghost predicate ClaimsInv(s: System) {
    && (forall a :: a in s.workers ==>
          1 <= a <= s.row.attempts && s.workers[a].snapshot.attempts == a && s.workers[a].claimedAt <= s.now)
    && (s.row.status.Processing? ==> s.row.attempts >= 1)
  }

  ghost predicate WriteWorkerInv(s: System, a: nat, w: Worker) {
    && (w.snapshot.writeStartedAt.None? ==> s.boundary.None? || a <= s.boundary.value)
    && (w.snapshot.writeStartedAt.Some? ==> s.boundary.Some? && s.boundary.value < a)
    && (w.agentRan ==> w.snapshot.writeStartedAt.None?)
    && (w.granted > 0 ==> s.boundary == Some(a))
  }

  /** The boundary is the one attempt that may have written. */
  ghost predicate WriteInv(s: System) {
    && (s.row.writeStartedAt.Some? <==> s.boundary.Some?)
    && (s.boundary.Some? ==> s.boundary.value <= s.row.attempts)
    && (forall a :: a in s.workers ==> WriteWorkerInv(s, a, s.workers[a]))
  }

  /** What the logs say about writes. */
  ghost predicate WriteLogInv(s: System) {
    && (forall i :: 0 <= i < |s.writes| ==> s.boundary == Some(s.writes[i]))
    && (forall i :: 0 <= i < |s.agentRuns| ==> s.agentRuns[i] in s.workers && s.workers[s.agentRuns[i]].agentRan)
  }

  predicate Carries(outcome: Option<Outcome>, reply: Reply) {
    outcome.Some? && outcome.value.text == Some(reply.text) && outcome.value.kind == Some(reply.kind)
  }

  /** The worker may still make its own mark. */
  predicate MayMark(w: Worker) {
    w.pc.Composing? || w.pc.AgentRunning? || w.pc.Settling? || w.pc.Marking? || w.late.Some?
  }

  ghost predicate ReplyRowInv(s: System) {
    && |s.marks| <= 1
    && (s.row.replyAt.Some? <==> |s.marks| == 1)
    && (|s.marks| == 1 ==>
          var m := s.marks[0];
          && s.row.replyAt == Some(m.at) && m.at <= s.now
          && s.row.replyKey == Some(s.id) && m.reply.key == s.id
          && 1 <= m.attempt <= s.row.attempts
          && (s.row.Active() ==> Carries(s.row.outcome, m.reply)))
  }

  ghost predicate ReplyWorkerInv(s: System, a: nat, w: Worker) {
    && (w.snapshot.replyAt.Some? ==>
          && |s.marks| == 1
          && s.marks[0].attempt < a
          && w.snapshot.replyAt == Some(s.marks[0].at)
          && w.snapshot.replyKey == Some(s.id)
          && Carries(w.snapshot.outcome, s.marks[0].reply))
    && (w.snapshot.replyAt.None? && |s.marks| == 1 ==> a <= s.marks[0].attempt)
    && (MayMark(w) ==> w.snapshot.replyAt.None?)
    && (MayMark(w) || w.pc.Starting? ==> |s.marks| == 0 || s.marks[0].attempt != a)
    && (w.pc.Starting? ==> w.late.None?)
    && (w.late.Some? ==> w.pc.Abandoned? || w.pc.Ended?)
    && (w.late.Some? ==> w.late.value.at <= s.now)
    && (w.pc.Marking? ==> w.pc.at <= s.now)
    && (w.pc.Sending? || w.pc.Sent? ==> |s.marks| == 1 && w.pc.reply == s.marks[0].reply)
  }

  ghost predicate ReplyInv(s: System) {
    && ReplyRowInv(s)
    && (forall a :: a in s.workers ==> ReplyWorkerInv(s, a, s.workers[a]))
    && (forall i :: 0 <= i < |s.sends| ==> SendAgrees(s, s.sends[i]))
  }

  predicate SendAgrees(s: System, send: Send) { |s.marks| == 1 && send.reply == s.marks[0].reply }

  /** Each claim sends its reply at most once. */
  ghost predicate SendsInv(s: System) {
    && (forall i :: 0 <= i < |s.sends| ==>
          s.sends[i].attempt in s.workers
          && (s.workers[s.sends[i].attempt].pc.Sent? || s.workers[s.sends[i].attempt].pc.Ended?))
    && (forall i, j :: 0 <= i < j < |s.sends| ==> s.sends[i].attempt != s.sends[j].attempt)
  }

  /** The reply of a claim waits behind its progress barrier. */
  predicate BehindBarrier(w: Worker) {
    w.pc.Marking? || w.pc.Abandoned? || w.pc.Sending? || w.pc.Sent?
    ==> P.HasReturned(w.progress) || w.snapshot.replyAt.Some?
  }

  ghost predicate ProgressWorkerInv(s: System, a: nat, w: Worker) {
    && P.Inv(w.progress)
    && BehindBarrier(w)
    && (w.snapshot.replyAt.Some? ==> w.progress.marker.Handled? && w.progress.delivery.NotSent? && !w.progress.timer)
    && (w.progress.marker == P.Answered(true) ==> s.admitted == Some(a) && |s.progressSends| == 0)
    && (!w.progress.delivery.NotSent? ==> s.progressSends == [a])
  }

  ghost predicate ProgressInv(s: System) {
    && (s.row.progressAt.Some? <==> s.admitted.Some?)
    && |s.progressSends| <= 1
    && (|s.progressSends| == 1 ==> s.admitted == Some(s.progressSends[0]))
    && (forall a :: a in s.workers ==> ProgressWorkerInv(s, a, s.workers[a]))
  }

  /** Who is in charge of taking the reaction away. */
  function Holders(s: System): nat {
    (if s.gateway.Holding? then 1 else 0) + (if s.row.reaction.Some? then 1 else 0) + |s.handed|
  }

  ghost predicate ReactionInv(s: System) {
    && (s.added.Some? <==> !s.gateway.Idle?)
    && Holders(s) == (if s.added.Some? then 1 else 0)
    && (s.gateway.Holding? ==> s.added == Some(s.gateway.reaction))
    && (s.row.reaction.Some? ==> s.row.Active() && s.row.reaction == s.added)
    && (forall i :: 0 <= i < |s.handed| ==> s.added == Some(s.handed[i].reaction))
  }

  // ---------- the shape of a step ----------

  /** The call a step makes to the store, if any. */
  function CallOf(s: System, step: Step): Option<EventRows.Call>
    requires Enabled(s, step)
  {
    match step
    case Inspect(a) =>
      if s.workers[a].snapshot.replyAt.Some? && Recovered(s.workers[a].snapshot, s.now).None?
      then Some(EventRows.MarkReplyUncertain(a)) else None
    case AgentFails(a, _, computedAt, _) =>
      if 1 <= a < MAX_AGENT_ATTEMPTS then Some(RetryCall(computedAt, a, false, "agent_failed")) else None
    case BeginWrite(a, _) => Some(EventRows.MarkWrite(a))
    case MarkReply(a) =>
      var pc := s.workers[a].pc;
      Some(MarkCall(s, a, pc.text, pc.kind, pc.at))
    case LateMarkArrives(a) =>
      var late := s.workers[a].late.value;
      Some(MarkCall(s, a, late.text, late.kind, late.at))
    case Delivered(a, message) => Some(EventRows.Complete(a, Some(message), None))
    case Release(a, drain, code, computedAt, _) => Some(ReleaseCall(computedAt, a, s.workers[a], drain, code))
    case Progress(a, inner, computedAt) =>
      if inner.MarkerAnswers? then Some(EventRows.MarkProgressAttempted(a, computedAt)) else None
    case ConfirmProgress(a, message) => Some(EventRows.ConfirmProgressSent(a, message))
    case AttachReaction => Some(EventRows.AttachReaction(s.gateway.reaction))
    case _ => None
  }

  /** When the statement of the step's call began. */
  function StartOf(s: System, step: Step): Instant {
    match step
    case AgentFails(_, _, _, startedAt) => startedAt
    case BeginWrite(_, startedAt) => startedAt
    case Release(_, _, _, _, startedAt) => startedAt
    case _ => s.now
  }

  /** The tables after the step's call, workers and gateway aside. */
  function Stored(s: System, step: Step): System
    requires Enabled(s, step)
  {
    if CallOf(s, step).Some? then Fenced(s, CallOf(s, step).value, StartOf(s, step)) else s
  }

  lemma StepStores(s: System, step: Step)
    requires Enabled(s, step) && !step.Claim? && !step.Recover?
    ensures var t, after := Stored(s, step), After(s, step);
            && after.row == t.row && after.marks == t.marks && after.boundary == t.boundary
            && after.admitted == t.admitted && after.id == s.id && after.now >= s.now
            && after.lastClaim == s.lastClaim
            && (!step.AttachReaction? ==> after.handed == t.handed)
            && (!step.AttachReaction? && !step.AddReaction? ==> after.gateway == s.gateway && after.added == s.added)
  {
    if step.OfWorker() { EffectsStore(s, step); }
  }

  lemma EffectsStore(s: System, step: Step)
    requires Enabled(s, step) && step.OfWorker()
    ensures var t, after := Stored(s, step), Effects(s, step);
            && after.row == t.row && after.marks == t.marks && after.boundary == t.boundary
            && after.admitted == t.admitted && after.handed == t.handed
            && after.id == s.id && after.now == s.now && after.lastClaim == s.lastClaim
            && after.gateway == s.gateway && after.added == s.added
  {
  }

  lemma EffectsKeepWorkers(s: System, step: Step)
    requires Enabled(s, step) && step.OfWorker()
    ensures Effects(s, step).workers == s.workers
  {
  }

  /** A step moves at most its own worker. */
  lemma OthersStay(s: System, step: Step, b: nat)
    requires Enabled(s, step) && ClaimsInv(s) && b in s.workers
    ensures b in After(s, step).workers
    ensures After(s, step).workers[b] == if step.OfWorker() && step.a == b then Moved(s, step) else s.workers[b]
  {
    if step.OfWorker() { EffectsKeepWorkers(s, step); }
  }

  /** A step touches one worker, and never its snapshot. */
  lemma StepKeepsSnapshots(s: System, step: Step, b: nat)
    requires Enabled(s, step) && ClaimsInv(s) && b in s.workers
    ensures b in After(s, step).workers
    ensures var w, w' := s.workers[b], After(s, step).workers[b];
            && w'.snapshot == w.snapshot && w'.claimedAt == w.claimedAt
            && (w'.agentRan != w.agentRan ==> step.Compose? && w.snapshot.writeStartedAt.None?)
            && (w'.granted > w.granted ==> step.BeginWrite? && step.a == b
                                           && EventRows.Accepts(s.row, EventRows.MarkWrite(b)))
            && (w.agentRan ==> w'.agentRan)
  {
    OthersStay(s, step, b);
  }

  // ---------- preservation ----------

  lemma OnlyClaimsAddWorkers(s: System, step: Step)
    requires Enabled(s, step)
    ensures After(s, step).workers.Keys == s.workers.Keys + if step.Claim? then {s.row.attempts + 1} else {}
  {
    if step.OfWorker() { EffectsKeepWorkers(s, step); }
  }

  /** The row keeps its attempt number, except that a claim takes the next one. */
  lemma StepKeepsAttempts(s: System, step: Step)
    requires Enabled(s, step)
    ensures After(s, step).row.attempts == s.row.attempts + if step.Claim? then 1 else 0
    ensures After(s, step).row.status.Processing? ==> s.row.status.Processing? || step.Claim?
  {
    if !step.Claim? && !step.Recover? {
      StepStores(s, step);
      if CallOf(s, step).Some? && EventRows.Accepts(s.row, CallOf(s, step).value) {
        EventRows.CallsAreFenced(s.row, CallOf(s, step).value, StartOf(s, step));
      }
    }
  }

  lemma StepKeepsClaims(s: System, step: Step)
    requires Enabled(s, step) && ClaimsInv(s)
    ensures ClaimsInv(After(s, step))
  {
    StepKeepsAttempts(s, step);
    OnlyClaimsAddWorkers(s, step);
    var after := After(s, step);
    assert after.now >= s.now;
    forall a | a in after.workers
      ensures 1 <= a <= after.row.attempts && after.workers[a].snapshot.attempts == a && after.workers[a].claimedAt <= after.now
    {
      if a in s.workers { StepKeepsSnapshots(s, step, a); }
    }
  }

  /** Only `SendReply` sends. */
  lemma SendsGrow(s: System, step: Step)
    requires Enabled(s, step)
    ensures After(s, step).sends == s.sends + if step.SendReply? then [Send(step.a, s.workers[step.a].pc.reply)] else []
  {
  }

  /** A claim that has sent is past sending for good. */
  lemma SentStays(s: System, step: Step, a: nat)
    requires Enabled(s, step) && ClaimsInv(s) && a in s.workers && (s.workers[a].pc.Sent? || s.workers[a].pc.Ended?)
    ensures a in After(s, step).workers
    ensures After(s, step).workers[a].pc.Sent? || After(s, step).workers[a].pc.Ended?
    ensures step.SendReply? ==> step.a != a
  {
    OthersStay(s, step, a);
  }

  lemma FencedKeepsWriteRow(s: System, call: EventRows.Call, startedAt: Instant)
    requires WriteInv(s)
    ensures var t := Fenced(s, call, startedAt);
            && (t.row.writeStartedAt.Some? <==> t.boundary.Some?)
            && t.row.attempts == s.row.attempts
            && (s.boundary.Some? ==> t.boundary == s.boundary)
            && (t.boundary != s.boundary ==> t.boundary == Some(s.row.attempts))
            && (call.MarkWrite? && EventRows.Accepts(s.row, call) ==> t.boundary.Some? && call.attempt == s.row.attempts)
  {
  }

  lemma StepKeepsWrites(s: System, step: Step)
    requires Enabled(s, step) && ClaimsInv(s) && WriteInv(s)
    ensures WriteInv(After(s, step))
    ensures s.boundary.Some? ==> After(s, step).boundary == s.boundary
  {
    var after := After(s, step);
    if !step.Claim? && !step.Recover? {
      StepStores(s, step);
      if CallOf(s, step).Some? { FencedKeepsWriteRow(s, CallOf(s, step).value, StartOf(s, step)); }
    }
    forall a | a in s.workers ensures a in after.workers && WriteWorkerInv(after, a, after.workers[a]) {
      WorkerKeepsWrites(s, step, after, a);
    }
    OnlyClaimsAddWorkers(s, step);
  }

  lemma WorkerKeepsWrites(s: System, step: Step, after: System, a: nat)
    requires Enabled(s, step) && ClaimsInv(s) && WriteInv(s) && a in s.workers && after == After(s, step)
    requires s.boundary.Some? ==> after.boundary == s.boundary
    requires after.boundary != s.boundary ==> after.boundary == Some(s.row.attempts)
    requires step.BeginWrite? && EventRows.Accepts(s.row, EventRows.MarkWrite(step.a)) ==> after.boundary.Some?
    ensures a in after.workers && WriteWorkerInv(after, a, after.workers[a])
  {
    assert WriteWorkerInv(s, a, s.workers[a]);
    StepKeepsSnapshots(s, step, a);
  }

  lemma LogsGrow(s: System, step: Step)
    requires Enabled(s, step)
    ensures After(s, step).writes == s.writes + if step.PerformWrite? then [step.a] else []
    ensures After(s, step).agentRuns == s.agentRuns
            || (step.Compose? && After(s, step).agentRuns == s.agentRuns + [step.a]
                && step.a in After(s, step).workers && After(s, step).workers[step.a].agentRan)
  {
  }

  lemma StepKeepsWriteLog(s: System, step: Step)
    requires Enabled(s, step) && ClaimsInv(s) && WriteInv(s) && WriteLogInv(s)
    ensures WriteLogInv(After(s, step))
  {
    StepKeepsWrites(s, step);
    LogsGrow(s, step);
    var after := After(s, step);
    forall i | 0 <= i < |after.writes| ensures after.boundary == Some(after.writes[i]) {
      if i == |s.writes| { assert WriteWorkerInv(s, step.a, s.workers[step.a]); }
    }
    forall i | 0 <= i < |after.agentRuns|
      ensures after.agentRuns[i] in after.workers && after.workers[after.agentRuns[i]].agentRan
    {
      if i < |s.agentRuns| { StepKeepsSnapshots(s, step, s.agentRuns[i]); }
    }
  }

  lemma StepKeepsReaction(s: System, step: Step)
    requires Enabled(s, step) && ReactionInv(s)
    ensures ReactionInv(After(s, step))
  {
    if step.OfWorker() || step.Tick? {
      StepStores(s, step);
      if CallOf(s, step).Some? { FencedKeepsReaction(s, CallOf(s, step).value, StartOf(s, step)); }
      assert ReactionInv(Stored(s, step));
    }
  }

  /** A worker's call that ends the row hands the reaction over. */
  lemma FencedKeepsReaction(s: System, call: EventRows.Call, startedAt: Instant)
    requires ReactionInv(s) && !call.AttachReaction?
    ensures ReactionInv(Fenced(s, call, startedAt))
  {
  }

  lemma StepKeepsSends(s: System, step: Step)
    requires Enabled(s, step) && SendsInv(s) && ClaimsInv(s)
    ensures SendsInv(After(s, step))
  {
    SendsGrow(s, step);
    forall i | 0 <= i < |s.sends| { SentStays(s, step, s.sends[i].attempt); }
  }

  /** A mark is only made by a worker that found none, and fencing makes it the first. */
  lemma FencedKeepsReplyRow(s: System, call: EventRows.Call, startedAt: Instant)
    requires ReplyRowInv(s) && ClaimsInv(s)
    requires call.MarkReplyStarted? && EventRows.Accepts(s.row, call) ==>
               |s.marks| == 0 && call.key == s.id && call.at <= s.now
    ensures ReplyRowInv(Fenced(s, call, startedAt))
    ensures |s.marks| == 1 ==> Fenced(s, call, startedAt).marks == s.marks
    ensures |s.marks| == 0 && |Fenced(s, call, startedAt).marks| == 1 ==>
              call.MarkReplyStarted? && call.attempt == s.row.attempts
              && Fenced(s, call, startedAt).marks == [Mark(call.attempt, call.at, Reply(s.id, call.text, call.kind))]
  {
  }

  /** The worker of the current claim finds no earlier mark. */
  lemma MarkersAreFirst(s: System, a: nat)
    requires ClaimsInv(s) && ReplyInv(s) && a in s.workers && MayMark(s.workers[a]) && s.row.OwnedBy(a)
    ensures |s.marks| == 0
  {
    assert ReplyWorkerInv(s, a, s.workers[a]);
  }

  lemma StepKeepsReplyRow(s: System, step: Step)
    requires Enabled(s, step) && ClaimsInv(s) && ReplyInv(s)
    ensures ReplyRowInv(After(s, step))
    ensures |s.marks| == 1 ==> After(s, step).marks == s.marks
    ensures |s.marks| == 0 && |After(s, step).marks| == 1 ==>
              (step.MarkReply? || step.LateMarkArrives?) && After(s, step).marks[0].attempt == step.a
              && step.a == s.row.attempts
  {
    if !step.Claim? && !step.Recover? {
      StepStores(s, step);
      if CallOf(s, step).Some? {
        if step.MarkReply? || step.LateMarkArrives? {
          assert ReplyWorkerInv(s, step.a, s.workers[step.a]);
          if s.row.OwnedBy(step.a) { MarkersAreFirst(s, step.a); }
        }
        FencedKeepsReplyRow(s, CallOf(s, step).value, StartOf(s, step));
      }
    }
  }

  /** A worker that did not move only sees a mark appear that is not its own. */
  lemma MarkSparesOthers(s: System, step: Step, b: nat, after: System)
    requires Enabled(s, step) && ClaimsInv(s) && ReplyInv(s) && b in s.workers && after == After(s, step)
    requires b in after.workers && after.workers[b] == s.workers[b]
    ensures ReplyWorkerInv(after, b, s.workers[b])
  {
    StepKeepsReplyRow(s, step);
    assert ReplyWorkerInv(s, b, s.workers[b]);
    if !step.Claim? && !step.Recover? { StepStores(s, step); }
  }

  predicate Replies(step: Step) {
    step.MarkReply? || step.LateMarkArrives? || step.SendReply? || step.Inspect?
  }

  lemma ReplyingWorkerKeepsReply(s: System, step: Step)
    requires Enabled(s, step) && Replies(step) && ClaimsInv(s) && ReplyInv(s)
    ensures step.a in After(s, step).workers && ReplyWorkerInv(After(s, step), step.a, After(s, step).workers[step.a])
  {
    StepKeepsReplyRow(s, step);
    StepStores(s, step);
    OthersStay(s, step, step.a);
    var after := After(s, step);
    if step.MarkReply? && s.row.OwnedBy(step.a) { MarkersAreFirst(s, step.a); }
    ReplierKeepsReply(s, step, after);
  }

  lemma ReplierKeepsReply(s: System, step: Step, after: System)
    requires Enabled(s, step) && Replies(step) && ReplyInv(s)
    requires step.MarkReply? && s.row.OwnedBy(step.a) ==> |s.marks| == 0
    requires after.id == s.id && after.now >= s.now && ReplyRowInv(after) && after.marks == Stored(s, step).marks
    requires |s.marks| == 1 ==> after.marks == s.marks
    requires |s.marks| == 0 && |after.marks| == 1 ==>
               (step.MarkReply? || step.LateMarkArrives?) && after.marks[0].attempt == step.a
    ensures ReplyWorkerInv(after, step.a, Moved(s, step))
  {
    assert ReplyWorkerInv(s, step.a, s.workers[step.a]);
  }

  /** How a worker moves in a step that neither fixes, sends nor looks up a reply. */
  predicate Moves(s: System, w: Worker, w': Worker) {
    && w'.snapshot == w.snapshot
    && (w'.pc.Sending? || w'.pc.Sent? ==> w'.pc == w.pc)
    && (MayMark(w') ==> MayMark(w))
    && (w'.pc.Starting? ==> w.pc.Starting? && w'.late == w.late)
    && (w'.late.Some? ==> w'.pc.Abandoned? || w'.pc.Ended?)
    && (w'.late.Some? ==> w'.late == w.late || (w.pc.Marking? && w'.late.value.at == w.pc.at))
    && (w'.pc.Marking? ==> w'.pc == w.pc || w'.pc.at == s.now)
  }

  lemma ActorMoves(s: System, step: Step)
    requires Enabled(s, step) && step.OfWorker() && !Replies(step)
    requires s.workers[step.a].late.Some? ==> s.workers[step.a].pc.Abandoned? || s.workers[step.a].pc.Ended?
    ensures Moves(s, s.workers[step.a], Moved(s, step))
  {
  }

  lemma OtherWorkerMoves(s: System, step: Step, b: nat)
    requires Enabled(s, step) && !Replies(step) && ClaimsInv(s) && b in s.workers
    requires s.workers[b].late.Some? ==> s.workers[b].pc.Abandoned? || s.workers[b].pc.Ended?
    ensures Moves(s, s.workers[b], After(s, step).workers[b])
  {
    OthersStay(s, step, b);
    if step.OfWorker() && step.a == b { ActorMoves(s, step); }
  }

  lemma MovesKeepReply(s: System, after: System, b: nat)
    requires b in s.workers && b in after.workers && ReplyWorkerInv(s, b, s.workers[b])
    requires after.marks == s.marks && after.id == s.id && after.now >= s.now
    requires Moves(s, s.workers[b], after.workers[b])
    ensures ReplyWorkerInv(after, b, after.workers[b])
  {
  }

  lemma OtherWorkerKeepsReply(s: System, step: Step, b: nat, after: System)
    requires Enabled(s, step) && !Replies(step) && ClaimsInv(s) && ReplyInv(s) && b in s.workers
    requires after == After(s, step)
    ensures b in after.workers && ReplyWorkerInv(after, b, after.workers[b])
  {
    StepKeepsReplyRow(s, step);
    StepKeepsSnapshots(s, step, b);
    assert ReplyWorkerInv(s, b, s.workers[b]);
    OtherWorkerMoves(s, step, b);
    if !step.Claim? && !step.Recover? { StepStores(s, step); }
    MovesKeepReply(s, after, b);
  }

  /** A new claim reads the mark, if there is one, into its snapshot. */
  lemma NewWorkerReads(s: System, step: Step)
    requires Enabled(s, step) && step.Claim? && ClaimsInv(s) && ReplyInv(s)
    ensures var after, a := After(s, step), s.row.attempts + 1;
            a in after.workers && ReplyWorkerInv(after, a, after.workers[a])
  {
  }

  lemma StepKeepsReplyWorkers(s: System, step: Step, after: System)
    requires Enabled(s, step) && ClaimsInv(s) && ReplyInv(s) && after == After(s, step)
    ensures forall a :: a in after.workers ==> ReplyWorkerInv(after, a, after.workers[a])
  {
    OnlyClaimsAddWorkers(s, step);
    if step.Claim? { NewWorkerReads(s, step); }
    forall a | a in s.workers ensures a in after.workers && ReplyWorkerInv(after, a, after.workers[a]) {
      WorkerKeepsReply(s, step, a, after);
    }
  }

  lemma WorkerKeepsReply(s: System, step: Step, a: nat, after: System)
    requires Enabled(s, step) && ClaimsInv(s) && ReplyInv(s) && a in s.workers && after == After(s, step)
    ensures a in after.workers && ReplyWorkerInv(after, a, after.workers[a])
  {
    OthersStay(s, step, a);
    if !Replies(step) { OtherWorkerKeepsReply(s, step, a, after); }
    else if a == step.a { ReplyingWorkerKeepsReply(s, step); }
    else { MarkSparesOthers(s, step, a, after); }
  }

  lemma StepKeepsAgreement(s: System, step: Step, after: System)
    requires Enabled(s, step) && ClaimsInv(s) && ReplyInv(s) && after == After(s, step)
    ensures forall i :: 0 <= i < |after.sends| ==> SendAgrees(after, after.sends[i])
  {
    StepKeepsReplyRow(s, step);
    SendsGrow(s, step);
    forall i | 0 <= i < |after.sends| ensures SendAgrees(after, after.sends[i]) {
      if i < |s.sends| {
        assert SendAgrees(s, s.sends[i]);
      } else {
        assert ReplyWorkerInv(s, step.a, s.workers[step.a]);
      }
    }
  }

  lemma StepKeepsReply(s: System, step: Step)
    requires Enabled(s, step) && ClaimsInv(s) && ReplyInv(s)
    ensures ReplyInv(After(s, step))
  {
    StepKeepsReplyRow(s, step);
    StepKeepsReplyWorkers(s, step, After(s, step));
    StepKeepsAgreement(s, step, After(s, step));
  }

  lemma SettleKeepsBarrier(w: Worker, text: string, kind: ReplyKind)
    requires P.Inv(w.progress)
    ensures var w' := ToSettle(w, text, kind);
            && P.Inv(w'.progress)
            && w'.progress.delivery == w.progress.delivery && w'.progress.marker == w.progress.marker
            && (P.HasReturned(w.progress) ==> P.HasReturned(w'.progress))
  {
    P.StepKeepsInv(w.progress, P.CallSettle);
  }

  lemma ProgressActorKeepsProgress(s: System, a: nat, inner: P.Step, computedAt: Instant, after: System)
    requires Enabled(s, Progress(a, inner, computedAt)) && ClaimsInv(s) && ProgressInv(s) && after == After(s, Progress(a, inner, computedAt))
    ensures a in after.workers && ProgressWorkerInv(after, a, after.workers[a])
  {
    var w := s.workers[a];
    assert ProgressWorkerInv(s, a, w);
    if inner.MarkerAnswers? {
      P.StepKeepsInv(w.progress, P.MarkerAnswers(inner.admitted
                                                 && EventRows.Accepts(s.row, EventRows.MarkProgressAttempted(a, computedAt))));
    } else {
      P.StepKeepsInv(w.progress, inner);
    }
  }

  lemma ProgressOthersKeepProgress(s: System, a: nat, inner: P.Step, computedAt: Instant, after: System, b: nat)
    requires Enabled(s, Progress(a, inner, computedAt)) && ClaimsInv(s) && ProgressInv(s) && after == After(s, Progress(a, inner, computedAt))
    requires b in s.workers && b != a
    ensures b in after.workers && ProgressWorkerInv(after, b, after.workers[b])
  {
    assert ProgressWorkerInv(s, b, s.workers[b]) && ProgressWorkerInv(s, a, s.workers[a]);
  }

  lemma ProgressRowKeepsProgress(s: System, a: nat, inner: P.Step, computedAt: Instant, after: System)
    requires Enabled(s, Progress(a, inner, computedAt)) && ClaimsInv(s) && ProgressInv(s) && after == After(s, Progress(a, inner, computedAt))
    ensures after.workers.Keys == s.workers.Keys
    ensures after.row.progressAt.Some? <==> after.admitted.Some?
    ensures |after.progressSends| <= 1
    ensures |after.progressSends| == 1 ==> after.admitted == Some(after.progressSends[0])
  {
    assert ProgressWorkerInv(s, a, s.workers[a]);
  }

  lemma ProgressStepKeepsProgress(s: System, a: nat, inner: P.Step, computedAt: Instant)
    requires Enabled(s, Progress(a, inner, computedAt)) && ClaimsInv(s) && ProgressInv(s)
    ensures ProgressInv(After(s, Progress(a, inner, computedAt)))
  {
    var after := After(s, Progress(a, inner, computedAt));
    ProgressRowKeepsProgress(s, a, inner, computedAt, after);
    forall b | b in after.workers ensures ProgressWorkerInv(after, b, after.workers[b]) {
      if b == a { ProgressActorKeepsProgress(s, a, inner, computedAt, after); }
      else { ProgressOthersKeepProgress(s, a, inner, computedAt, after, b); }
    }
  }

  lemma OtherStepKeepsProgressWorker(s: System, step: Step, b: nat)
    requires Enabled(s, step) && !step.Progress? && ClaimsInv(s) && b in s.workers
    requires ProgressWorkerInv(s, b, s.workers[b])
    ensures ProgressWorkerInv(s, b, After(s, step).workers[b])
  {
    OthersStay(s, step, b);
    if step.OfWorker() && step.a == b { ActorKeepsProgress(s, step); }
  }

  lemma ActorKeepsProgress(s: System, step: Step)
    requires Enabled(s, step) && step.OfWorker() && !step.Progress?
    requires ProgressWorkerInv(s, step.a, s.workers[step.a])
    ensures ProgressWorkerInv(s, step.a, Moved(s, step))
  {
    var w, w' := s.workers[step.a], Moved(s, step);
    if w'.progress != w.progress { SettleKeepsBarrier(w, w'.pc.text, w'.pc.kind); }
  }

  lemma FencedKeepsProgress(s: System, call: EventRows.Call, startedAt: Instant)
    requires !call.MarkProgressAttempted?
    ensures Fenced(s, call, startedAt).row.progressAt == s.row.progressAt && Fenced(s, call, startedAt).admitted == s.admitted
  {
  }

  lemma OtherStepSendsNoProgress(s: System, step: Step)
    requires Enabled(s, step) && !step.Progress?
    ensures After(s, step).progressSends == s.progressSends
  {
  }

  lemma OtherStepKeepsProgressRow(s: System, step: Step)
    requires Enabled(s, step) && !step.Progress? && ClaimsInv(s) && ProgressInv(s)
    ensures var after := After(s, step);
            && after.admitted == s.admitted && after.progressSends == s.progressSends
            && after.row.progressAt == s.row.progressAt
  {
    OtherStepSendsNoProgress(s, step);
    if !step.Claim? && !step.Recover? {
      StepStores(s, step);
      if CallOf(s, step).Some? { FencedKeepsProgress(s, CallOf(s, step).value, StartOf(s, step)); }
    }
  }

  lemma StepKeepsProgress(s: System, step: Step)
    requires Enabled(s, step) && ClaimsInv(s) && ProgressInv(s)
    ensures ProgressInv(After(s, step))
  {
    if step.Progress? {
      ProgressStepKeepsProgress(s, step.a, step.inner, step.computedAt);
    } else {
      OtherStepKeepsProgressRow(s, step);
      var after := After(s, step);
      forall a | a in after.workers ensures ProgressWorkerInv(after, a, after.workers[a]) {
        if a in s.workers {
          OtherStepKeepsProgressWorker(s, step, a);
          assert ProgressWorkerInv(s, a, after.workers[a]);
        }
      }
    }
  }
}

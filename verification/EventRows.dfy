/** What one store call does to one row of `processed_events`. */
module EventRows {
  import opened Records

  const MIN_RETRY_DELAY := 250
  const MAX_RETRY_DELAY := 300_000

  /** The calls that touch a single existing row. `attempt` is the fencing number. */
  datatype Call =
    | Complete(attempt: nat, replyMessage: Option<string>, errorCode: Option<string>)
    | MarkReplyUncertain(attempt: nat)
    | MarkReplyStarted(attempt: nat, key: EventId, at: Instant, text: string, kind: ReplyKind)
    | MarkProgressAttempted(attempt: nat, at: Instant)
    | ConfirmProgressSent(attempt: nat, message: string)
    | Retry(attempt: nat, reason: string, nextAttemptAt: Instant)
    | MarkWrite(attempt: nat)
    | AttachReaction(reaction: string)

  /** The `where` clause of the call; a call that is not accepted changes nothing. */
  predicate Accepts(e: Event, call: Call) {
    match call
    case Complete(a, _, _) => e.OwnedBy(a)
    case MarkReplyUncertain(a) => e.OwnedBy(a)
    case MarkReplyStarted(a, _, _, _, _) => e.OwnedBy(a)
    case MarkProgressAttempted(a, _) => e.OwnedBy(a) && e.replyAt.None? && e.progressAt.None?
    case ConfirmProgressSent(a, _) =>
      e.OwnedBy(a) && e.progressAt.Some? && e.progressMessage.None? && e.replyAt.None?
    case Retry(a, _, _) => e.OwnedBy(a)
    case MarkWrite(a) => e.OwnedBy(a)
    case AttachReaction(_) => e.Active() && e.reaction.None?
  }

  function RetryInstant(requested: Instant, now: Instant): Instant {
    Min(Max(requested, now + MIN_RETRY_DELAY), now + MAX_RETRY_DELAY)
  }

  function WithError(outcome: Option<Outcome>, errorCode: string): Outcome {
    (if outcome.Some? then outcome.value else Outcome(None, None, None, None))
    .(errorCode := Some(errorCode))
  }

  function Apply(e: Event, call: Call, now: Instant): Event
    requires Accepts(e, call)
  {
    match call
    case Complete(_, message, error) =>
      e.(status := EventStatus.Completed, leasedUntil := None, reaction := None,
      outcome := Some(Outcome(message, error, None, None)))
    case MarkReplyUncertain(_) =>
      e.(status := EventStatus.Failed, leasedUntil := None, reaction := None,
      outcome := Some(Outcome(None, Some("reply_uncertain"), None, None)))
    case MarkReplyStarted(_, key, at, text, kind) =>
      e.(replyKey := Some(key), replyAt := Some(at),
      outcome := Some(Outcome(None, None, Some(text), Some(kind))))
    case MarkProgressAttempted(_, at) => e.(progressAt := Some(at))
    case ConfirmProgressSent(_, message) => e.(progressMessage := Some(message))
    case Retry(_, error, next) =>
      e.(status := EventStatus.Queued, leasedUntil := None,
      nextAttemptAt := RetryInstant(next, now), outcome := Some(WithError(e.outcome, error)))
    case MarkWrite(_) =>
      e.(writeStartedAt := if e.writeStartedAt.Some? then e.writeStartedAt else Some(now))
    case AttachReaction(reaction) => e.(reaction := Some(reaction))
  }

  /** The row an `enqueue` inserts; both instants default to the start of its transaction. */
  function Fresh(conversation: ChatId, unsupported: bool, at: Instant): Event {
    Event(conversation, unsupported, at, EventStatus.Queued, 0, at, None, None, None, None, None,
          None, None, None)
  }

  function Claim(e: Event, leaseUntil: Instant): Event {
    e.(status := EventStatus.Processing, attempts := e.attempts + 1, leasedUntil := Some(leaseUntil))
  }

  predicate Expired(e: Event, now: Instant) {
    e.status.Processing? && e.leasedUntil.Some? && e.leasedUntil.value <= now
  }

  function Expire(e: Event, now: Instant): Event {
    e.(status := EventStatus.Queued, leasedUntil := None, nextAttemptAt := now)
  }

  /** The attempt a call is fenced by, if it is fenced at all. */
  function Fence(call: Call): Option<nat> {
    if call.AttachReaction? then None else Some(call.attempt)
  }

  /** Fencing: a call that changes a row was made by the attempt that still owns it, and
    * only `AttachReaction` may reach a row nobody owns. No call wakes a terminal row,
    * moves a row to another conversation, or renumbers its attempts. */
  lemma CallsAreFenced(e: Event, call: Call, now: Instant)
    requires Accepts(e, call)
    ensures e.Active()
    ensures Fence(call).Some? ==> e.OwnedBy(Fence(call).value)
    ensures Fence(call).None? ==> Apply(e, call, now) == e.(reaction := Apply(e, call, now).reaction)
    ensures var e' := Apply(e, call, now);
            && e'.conversation == e.conversation && e'.receivedAt == e.receivedAt
            && e'.attempts == e.attempts && e'.unsupported == e.unsupported
            && (e'.status.Processing? ==> e.status.Processing?)
            && (e.replyAt.Some? ==> e'.replyAt.Some?)
            && (e.progressAt.Some? ==> e'.progressAt == e.progressAt)
            && (e.writeStartedAt.Some? ==> e'.writeStartedAt == e.writeStartedAt)
  {
  }
}
